/** The two `formatIntervaloTiempo` functions: a signed number of minutes rendered in
    Spanish as "H hora(s)" and "M minuto(s)", space-separated, zero parts left out. The
    results list (screens/ResultadosScreen.js) formats the raw value; the lookup screen
    (screens/ConsultasScreen.js) formats its magnitude behind a blank when it is negative.
    `ReadInterval` reads a rendering back; it is the inverse the formatters are proved
    against. */
module Intervals {
  import opened Wrappers
  import opened Decimal
  import opened JsNumber

  function HourUnit(h: nat): string {
    if h == 1 then "hora" else "horas"
  }

  function MinuteUnit(m: nat): string {
    if m == 1 then "minuto" else "minutos"
  }

  /** `${horas} ${horas === 1 ? 'hora' : 'horas'}` */
  function HoursText(h: nat): string {
    NatToString(h) + " " + HourUnit(h)
  }

  /** `${minutosRestantes} ${minutosRestantes === 1 ? 'minuto' : 'minutos'}` */
  function MinutesText(m: nat): string {
    NatToString(m) + " " + MinuteUnit(m)
  }

  /** The accumulator both formatters build: `prefix`, then the hour part if `horas` is
      positive, then the minute part if `resto` is positive, separated by a blank from
      whatever was already written. */
  function Compose(prefix: string, horas: int, resto: int): string {
    var conHoras := if horas > 0 then prefix + HoursText(horas) else prefix;
    if resto > 0 then (if conHoras != "" then conHoras + " " else conHoras) + MinutesText(resto)
    else conHoras
  }

  /** The accumulator only appends to what was already written, and appends nothing
      exactly when both parts are non-positive. */
  lemma ComposeExtends(prefix: string, horas: int, resto: int)
    ensures prefix <= Compose(prefix, horas, resto)
    ensures Compose(prefix, horas, resto) == prefix <==> horas <= 0 && resto <= 0
  {
    var conHoras := if horas > 0 then prefix + HoursText(horas) else prefix;
    assert prefix <= conHoras;
    if resto > 0 {
      var sep := if conHoras != "" then conHoras + " " else conHoras;
      assert prefix <= sep;
      assert |Compose(prefix, horas, resto)| > |prefix|;
    }
  }

  /** The results list's formatter, on `Math.floor(minutos / 60)` and the truncated
      `minutos % 60`. For a non-positive input both are non-positive and nothing is
      written. */
  function FormatResultados(minutos: int): (r: string)
    ensures minutos <= 0 <==> r == ""
  {
    Compose("", FloorDiv(minutos, 60), Rem(minutos, 60))
  }

  /** The lookup screen's formatter, on the magnitude `Math.abs(intervaloMinutos)`; the
      result starts with a blank when the interval is negative, and the separator test
      then also sees that blank. */
  function FormatConsultas(minutos: int): (r: string)
    ensures minutos == 0 <==> r == ""
  {
    var abs := if minutos < 0 then -minutos else minutos;
    Compose(if minutos < 0 then " " else "", FloorDiv(abs, 60), Rem(abs, 60))
  }

  /** On a non-negative input the JavaScript operations are Dafny's. */
  lemma PartsOfNatural(n: int)
    requires n >= 0
    ensures FloorDiv(n, 60) == n / 60 && Rem(n, 60) == n % 60
  {
  }

  /** The reader's word splitter: the pieces of `s` between single blanks, empty pieces
      included. */
  function Split(s: string): (w: seq<string>)
    ensures |w| >= 1
    decreases |s|
  {
    if s == [] then [""]
    else if s[0] == ' ' then [""] + Split(s[1..])
    else
      var t := Split(s[1..]);
      [[s[0]] + t[0]] + t[1..]
  }

  predicate NoSpace(s: string) {
    forall i :: 0 <= i < |s| ==> s[i] != ' '
  }

  lemma {:induction false} SplitWord(w: string, rest: string)
    requires NoSpace(w)
    ensures Split(w + " " + rest) == [w] + Split(rest)
    decreases |w|
  {
    if w == [] {
      assert (w + " " + rest)[1..] == rest;
    } else {
      var s := w + " " + rest;
      assert s[1..] == w[1..] + " " + rest;
      SplitWord(w[1..], rest);
      assert [w[0]] + w[1..] == w;
    }
  }

  lemma {:induction false} SplitNoSpace(w: string)
    requires NoSpace(w)
    ensures Split(w) == [w]
    decreases |w|
  {
    if w != [] {
      SplitNoSpace(w[1..]);
      assert [w[0]] + w[1..] == w;
    }
  }

  /** "H hora" with H = 1, or "H horas" with H > 1: H hours, H written without a leading
      zero, as `toString` writes it. */
  function ReadHours(num: string, unit: string): Option<nat> {
    if num != "" && AllDigits(num) && num[0] != '0' && ParseDecimal(num) > 0 && unit == HourUnit(ParseDecimal(num))
    then Some(60 * ParseDecimal(num))
    else None
  }

  /** "M minuto" with M = 1, or "M minutos" with 1 < M < 60: M minutes, M written without a
      leading zero. */
  function ReadMinutes(num: string, unit: string): Option<nat> {
    if num != "" && AllDigits(num) && num[0] != '0' && 0 < ParseDecimal(num) < 60 && unit == MinuteUnit(ParseDecimal(num))
    then Some(ParseDecimal(num))
    else None
  }

  /** The number of minutes a rendering stands for: an hour part, a minute part, or an
      hour part, a blank and a minute part, each with its number and its correctly
      pluralised unit. */
  function ReadInterval(s: string): Option<nat> {
    var w := Split(s);
    if |w| == 2 then
      if ReadHours(w[0], w[1]).Some? then ReadHours(w[0], w[1]) else ReadMinutes(w[0], w[1])
    else if |w| == 4 && ReadHours(w[0], w[1]).Some? && ReadMinutes(w[2], w[3]).Some? then
      Some(ReadHours(w[0], w[1]).value + ReadMinutes(w[2], w[3]).value)
    else None
  }

  lemma NatToStringNoSpace(n: nat)
    ensures NoSpace(NatToString(n))
  {
    var s := NatToString(n);
    forall i | 0 <= i < |s| ensures s[i] != ' ' {
      assert IsDigit(s[i]);
    }
  }

  /** A number written by `toString` followed by its unit reads back as that many hours. */
  lemma ReadHoursOf(h: nat)
    requires h > 0
    ensures ReadHours(NatToString(h), HourUnit(h)) == Some(60 * h)
  {
    ParseNatToString(h);
    NoLeadingZero(h);
  }

  lemma ReadMinutesOf(m: nat)
    requires 0 < m < 60
    ensures ReadMinutes(NatToString(m), MinuteUnit(m)) == Some(m)
  {
    ParseNatToString(m);
    NoLeadingZero(m);
  }

  /** `toString` of a positive number does not start with '0'. */
  lemma NoLeadingZero(n: nat)
    requires n > 0
    ensures NatToString(n)[0] != '0'
  {
    if n < 10 {
      assert NatToString(n) == [DigitChar(n)];
    }
  }

  lemma SplitTwo(a: string, b: string)
    requires NoSpace(a) && NoSpace(b)
    ensures Split(a + " " + b) == [a, b]
  {
    SplitNoSpace(b);
    SplitWord(a, b);
  }

  lemma SplitFour(a: string, b: string, c: string, d: string)
    requires NoSpace(a) && NoSpace(b) && NoSpace(c) && NoSpace(d)
    ensures Split(a + " " + b + " " + c + " " + d) == [a, b, c, d]
  {
    SplitThree(b, c, d);
    SplitWord(a, b + " " + (c + " " + d));
    BlankJoinAssoc(a, b, c, d);
  }

  lemma SplitThree(b: string, c: string, d: string)
    requires NoSpace(b) && NoSpace(c) && NoSpace(d)
    ensures Split(b + " " + (c + " " + d)) == [b, c, d]
  {
    SplitTwo(c, d);
    SplitWord(b, c + " " + d);
  }

  lemma BlankJoinAssoc(a: string, b: string, c: string, d: string)
    ensures a + " " + b + " " + c + " " + d == a + " " + (b + " " + (c + " " + d))
  {
  }

  lemma ReadHoursAndMinutes(h: nat, m: nat)
    requires h > 0 && 0 < m < 60
    ensures ReadInterval(Compose("", h, m)) == Some(60 * h + m)
  {
    SplitComposeBoth(h, m);
    ReadHoursOf(h);
    ReadMinutesOf(m);
    ReadFourWords(Compose("", h, m), NatToString(h), HourUnit(h), NatToString(m), MinuteUnit(m));
  }

  lemma SplitComposeBoth(h: nat, m: nat)
    requires h > 0 && m > 0
    ensures Split(Compose("", h, m)) == [NatToString(h), HourUnit(h), NatToString(m), MinuteUnit(m)]
  {
    var hs, ms := NatToString(h), NatToString(m);
    NatToStringNoSpace(h);
    NatToStringNoSpace(m);
    ComposeBoth(h, m);
    assert Compose("", h, m) == hs + " " + HourUnit(h) + " " + ms + " " + MinuteUnit(m);
    SplitFour(hs, HourUnit(h), ms, MinuteUnit(m));
  }

  lemma ReadFourWords(s: string, a: string, b: string, c: string, d: string)
    requires Split(s) == [a, b, c, d]
    requires ReadHours(a, b).Some? && ReadMinutes(c, d).Some?
    ensures ReadInterval(s) == Some(ReadHours(a, b).value + ReadMinutes(c, d).value)
  {
  }

  lemma ReadHoursOnly(h: nat, m: nat)
    requires h > 0 && m == 0
    ensures ReadInterval(Compose("", h, m)) == Some(60 * h + m)
  {
    NatToStringNoSpace(h);
    assert Compose("", h, m) == NatToString(h) + " " + HourUnit(h);
    SplitTwo(NatToString(h), HourUnit(h));
    ReadHoursOf(h);
  }

  lemma ReadMinutesOnly(h: nat, m: nat)
    requires h == 0 && 0 < m < 60
    ensures ReadInterval(Compose("", h, m)) == Some(60 * h + m)
  {
    NatToStringNoSpace(m);
    assert Compose("", h, m) == NatToString(m) + " " + MinuteUnit(m);
    SplitTwo(NatToString(m), MinuteUnit(m));
    ReadMinutesOf(m);
    assert ReadHours(NatToString(m), MinuteUnit(m)).None?;
  }

  /** The results formatter loses nothing on a positive interval: its text reads back as
      the same number of minutes, with "hora"/"minuto" exactly when the part is 1. */
  lemma ReadFormatResultados(minutos: int)
    requires minutos > 0
    ensures ReadInterval(FormatResultados(minutos)) == Some(minutos)
  {
    PartsOfNatural(minutos);
    var h, m := minutos / 60, minutos % 60;
    ReadComposed(h, m);
    assert FormatResultados(minutos) == Compose("", h, m);
  }

  lemma ReadComposed(h: nat, m: nat)
    requires m < 60 && (h > 0 || m > 0)
    ensures ReadInterval(Compose("", h, m)) == Some(60 * h + m)
  {
    if h > 0 && m > 0 {
      ReadHoursAndMinutes(h, m);
    } else if h > 0 {
      ReadHoursOnly(h, m);
    } else {
      ReadMinutesOnly(h, m);
    }
  }

  /** The words `Split` cut, put back together with single blanks. */
  function Join(w: seq<string>): string
    requires |w| >= 1
    decreases |w|
  {
    if |w| == 1 then w[0] else w[0] + " " + Join(w[1..])
  }

  lemma {:induction false} JoinSplit(s: string)
    ensures Join(Split(s)) == s
    decreases |s|
  {
    if s != [] {
      JoinSplit(s[1..]);
      JoinSplitCons(s[0], s[1..]);
      assert [s[0]] + s[1..] == s;
    }
  }

  lemma JoinSplitCons(c: char, rest: string)
    requires Join(Split(rest)) == rest
    ensures Join(Split([c] + rest)) == [c] + rest
  {
    var s, t := [c] + rest, Split(rest);
    assert s[0] == c && s[1..] == rest;
    if c == ' ' {
      assert Split(s) == [""] + t;
      JoinCons("", t);
    } else if |t| == 1 {
      assert Split(s) == [[c] + t[0]];
    } else {
      assert Split(s) == [[c] + t[0]] + t[1..];
      JoinCons([c] + t[0], t[1..]);
      assert t == [t[0]] + t[1..];
      JoinCons(t[0], t[1..]);
    }
  }

  lemma JoinCons(x: string, rest: seq<string>)
    requires |rest| >= 1
    ensures Join([x] + rest) == x + " " + Join(rest)
  {
    assert ([x] + rest)[1..] == rest;
  }

  lemma JoinFour(w: seq<string>)
    requires |w| == 4
    ensures Join(w) == w[0] + " " + (w[1] + " " + (w[2] + " " + w[3]))
  {
    assert w[1..][1..] == w[2..] && w[2..][1..] == w[3..];
    assert Join(w[3..]) == w[3];
    assert Join(w[2..]) == w[2] + " " + w[3];
    assert Join(w[1..]) == w[1] + " " + Join(w[2..]);
  }

  /** The reader accepts nothing but the results formatter's own renderings: a text that
      reads as `n` minutes is exactly what the formatter writes for `n`. */
  lemma ReadIntervalExact(s: string, n: nat)
    requires ReadInterval(s) == Some(n)
    ensures n > 0 && FormatResultados(n) == s
  {
    var w := Split(s);
    JoinSplit(s);
    if |w| == 2 {
      assert s == w[0] + " " + w[1];
      if ReadHours(w[0], w[1]).Some? {
        ExactHours(w[0], w[1]);
      } else {
        ExactMinutes(w[0], w[1]);
      }
    } else {
      JoinFour(w);
      ExactBoth(w[0], w[1], w[2], w[3]);
    }
  }

  lemma ExactHours(num: string, unit: string)
    requires ReadHours(num, unit).Some?
    ensures ReadHours(num, unit).value > 0
    ensures FormatResultados(ReadHours(num, unit).value) == num + " " + unit
  {
    var h := ParseDecimal(num);
    CanonicalDigits(num);
    PartsOfNatural(60 * h);
    assert FormatResultados(60 * h) == Compose("", h, 0);
  }

  lemma ExactMinutes(num: string, unit: string)
    requires ReadMinutes(num, unit).Some?
    ensures ReadMinutes(num, unit).value > 0
    ensures FormatResultados(ReadMinutes(num, unit).value) == num + " " + unit
  {
    var m := ParseDecimal(num);
    CanonicalDigits(num);
    PartsOfNatural(m);
    assert FormatResultados(m) == Compose("", 0, m);
  }

  lemma ExactBoth(a: string, b: string, c: string, d: string)
    requires ReadHours(a, b).Some? && ReadMinutes(c, d).Some?
    ensures FormatResultados(ReadHours(a, b).value + ReadMinutes(c, d).value) == a + " " + (b + " " + (c + " " + d))
  {
    var h, m := ParseDecimal(a), ParseDecimal(c);
    assert b == HourUnit(h) && d == MinuteUnit(m) && h > 0 && 0 < m < 60;
    CanonicalDigits(a);
    CanonicalDigits(c);
    FormatBoth(h, m);
  }

  lemma FormatBoth(h: nat, m: nat)
    requires h > 0 && 0 < m < 60
    ensures FormatResultados(60 * h + m) == HoursText(h) + " " + MinutesText(m)
  {
    PartsOfNatural(60 * h + m);
    assert (60 * h + m) / 60 == h && (60 * h + m) % 60 == m;
    ComposeBoth(h, m);
  }

  lemma ComposeBoth(h: int, m: int)
    requires h > 0 && m > 0
    ensures Compose("", h, m) == HoursText(h) + " " + MinutesText(m)
  {
  }

  /** Two positive intervals with the same text are the same interval. */
  lemma FormatResultadosInjective(a: int, b: int)
    requires a > 0 && b > 0 && FormatResultados(a) == FormatResultados(b)
    ensures a == b
  {
    ReadFormatResultados(a);
    ReadFormatResultados(b);
  }

  /** How the two formatters relate: they agree on positive intervals; a negative one is
      rendered as its magnitude behind one blank, or behind two when the magnitude is under
      an hour (the blank already written makes the separator test succeed). */
  lemma ConsultasVersusResultados(minutos: int)
    ensures minutos > 0 ==> FormatConsultas(minutos) == FormatResultados(minutos)
    ensures minutos < 0 && -minutos >= 60 ==> FormatConsultas(minutos) == " " + FormatResultados(-minutos)
    ensures minutos < 0 && -minutos < 60 ==> FormatConsultas(minutos) == "  " + FormatResultados(-minutos)
  {
    if minutos < 0 {
      NegativeBehindBlanks(-minutos);
    } else if minutos > 0 {
      PositiveAgree(minutos);
    }
  }

  lemma PositiveAgree(n: int)
    requires n > 0
    ensures FormatConsultas(n) == FormatResultados(n)
  {
  }

  lemma NegativeBehindBlanks(n: int)
    requires n > 0
    ensures FormatConsultas(-n) == (if n < 60 then "  " else " ") + FormatResultados(n)
  {
    PartsOfNatural(n);
    var h, m := n / 60, n % 60;
    assert FormatConsultas(-n) == Compose(" ", h, m);
    assert FormatResultados(n) == Compose("", h, m);
    BlankPrefix(h, m);
  }

  lemma BlankPrefix(h: int, m: int)
    requires h > 0 || m > 0
    ensures Compose(" ", h, m) == (if h > 0 then " " else "  ") + Compose("", h, m)
  {
    if h > 0 && m > 0 {
      BlankPrefixBoth(h, m);
    } else if h > 0 {
      assert Compose(" ", h, m) == " " + HoursText(h);
      assert Compose("", h, m) == HoursText(h);
    } else {
      assert Compose(" ", h, m) == "  " + MinutesText(m);
      assert Compose("", h, m) == MinutesText(m);
    }
  }

  lemma BlankPrefixBoth(h: int, m: int)
    requires h > 0 && m > 0
    ensures Compose(" ", h, m) == " " + Compose("", h, m)
  {
    var hs, ms := HoursText(h), MinutesText(m);
    assert |hs| > 0;
    assert "" + hs == hs;
    assert (" " + hs) + " " + ms == " " + (hs + " " + ms);
  }

  /** Renderings of whole hours, of single minutes and of non-positive intervals. */
  lemma FormatResultadosExamples()
    ensures FormatResultados(60) == "1 hora"
    ensures FormatResultados(120) == "2 horas"
    ensures FormatResultados(1) == "1 minuto"
    ensures FormatResultados(-30) == ""
  {
    PartsOfNatural(60);
    PartsOfNatural(120);
    PartsOfNatural(1);
    assert NatToString(1) == "1" && NatToString(2) == "2";
  }

  /** A rendering with both parts, plural. */
  lemma FormatResultadosMixedExample()
    ensures FormatResultados(555) == "9 horas 15 minutos"
  {
    PartsOfNatural(555);
    assert NatToString(9) == "9";
    assert NatToString(15) == NatToString(1) + "5";
    assert FormatResultados(555) == HoursText(9) + " " + MinutesText(15);
  }

  /** Renderings with both parts, singular, and with minutes only. */
  lemma FormatResultadosSmallExamples()
    ensures FormatResultados(61) == "1 hora 1 minuto"
    ensures FormatResultados(5) == "5 minutos"
  {
    PartsOfNatural(61);
    PartsOfNatural(5);
    assert NatToString(1) == "1" && NatToString(5) == "5";
  }

  /** The lookup screen on the same inputs, negated. */
  lemma FormatConsultasExamples()
    ensures FormatConsultas(555) == "9 horas 15 minutos"
    ensures FormatConsultas(-61) == " 1 hora 1 minuto"
    ensures FormatConsultas(-5) == "  5 minutos"
  {
    FormatResultadosMixedExample();
    FormatResultadosSmallExamples();
    ConsultasVersusResultados(555);
    ConsultasVersusResultados(-61);
    ConsultasVersusResultados(-5);
  }

}
