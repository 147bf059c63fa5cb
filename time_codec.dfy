/** The packed time-of-day codec of the arrival screen (screens/LLegadaScreen.js): two
    pickers (hours 0..23, minutes 0..59) become one number HHMM, which is read back for
    the pickers and rendered as "HH:MM". */
module TimeCodec {
  import opened Decimal
  import opened Roster

  /** A picker label: `i < 10 ? `0${i}` : i.toString()`. `formatTiempo` pads its hour and
      minute in the same way. */
  function TwoDigits(n: nat): (s: string)
    ensures AllDigits(s) && ParseDecimal(s) == n
    ensures n < 100 ==> |s| == 2
    ensures s == PadStart2(NatToString(n))
  {
    ParseNatToString(n);
    if n < 10 then
      ParsePadStart2(NatToString(n));
      "0" + NatToString(n)
    else NatToString(n)
  }

  /** The text the save handler parses: each picker value as a string, padded to two
      digits, the two concatenated. */
  function PackedText(hour: nat, minute: nat): (s: string)
    ensures AllDigits(s)
  {
    ParsePadStart2(NatToString(hour));
    ParsePadStart2(NatToString(minute));
    AllDigitsConcat(PadStart2(NatToString(hour)), PadStart2(NatToString(minute)));
    PadStart2(NatToString(hour)) + PadStart2(NatToString(minute))
  }

  /** The text the save handler parses is the two picker labels side by side, four
      characters for picker values. */
  lemma PackedTextLabels(hour: nat, minute: nat)
    ensures PackedText(hour, minute) == TwoDigits(hour) + TwoDigits(minute)
    ensures |PackedText(hour, minute)| >= 4
    ensures hour < 100 && minute < 100 ==> |PackedText(hour, minute)| == 4
  {
  }

  /** The packed value the save handler stores: `parseInt` of the padded concatenation. */
  function Encode(hour: nat, minute: nat): (t: nat)
    ensures minute < 100 ==> t == hour * 100 + minute
  {
    if minute < 100 then EncodeIsPacked(hour, minute); ParseDecimal(PackedText(hour, minute))
    else ParseDecimal(PackedText(hour, minute))
  }

  /** Whatever the pickers hold, the packed value is hour * 100 + minute; the minute only
      has to fit in two digits, which the 0..59 picker guarantees. */
  lemma EncodeIsPacked(hour: nat, minute: nat)
    requires minute < 100
    ensures ParseDecimal(PackedText(hour, minute)) == hour * 100 + minute
  {
    var h, m := PadStart2(NatToString(hour)), PadStart2(NatToString(minute));
    ParseNatToString(hour);
    ParseNatToString(minute);
    ParsePadStart2(NatToString(hour));
    ParsePadStart2(NatToString(minute));
    ParseConcat(h, m);
    assert |m| == 2;
    assert Pow10(2) == 100;
  }

  /** Packed values compare as the times of day they encode, so sorting by the number
      sorts by the clock: this rests on the minute staying below 100. */
  lemma EncodeOrder(h1: nat, m1: nat, h2: nat, m2: nat)
    requires m1 < 60 && m2 < 60
    ensures Encode(h1, m1) < Encode(h2, m2) <==> h1 < h2 || (h1 == h2 && m1 < m2)
    ensures Encode(h1, m1) == Encode(h2, m2) <==> h1 == h2 && m1 == m2
  {
    PackedParts(h1, m1);
    PackedParts(h2, m2);
  }

  /** JavaScript truthiness of a time field: a number other than 0. */
  predicate Truthy(f: TimeField) {
    f.Value? && f.t != 0
  }

  /** The hour string the load step writes: `Math.floor(t / 100).toString()` for a truthy
      time, '0' otherwise. */
  function HourText(f: TimeField): (s: string)
    ensures AllDigits(s) && s != []
    ensures ParseDecimal(s) == if Truthy(f) then f.t / 100 else 0
  {
    ParseNatToString(if Truthy(f) then f.t / 100 else 0);
    if Truthy(f) then NatToString(f.t / 100) else "0"
  }

  /** The minute string the load step writes: `(t % 100).toString()` or '0'. */
  function MinuteText(f: TimeField): (s: string)
    ensures AllDigits(s) && s != []
    ensures ParseDecimal(s) == if Truthy(f) then f.t % 100 else 0
  {
    ParseNatToString(if Truthy(f) then f.t % 100 else 0);
    if Truthy(f) then NatToString(f.t % 100) else "0"
  }

  /** Decoding a packed value recovers, as picker value strings, the hour and minute that
      encoded it, including 00:00, which takes the falsy branch. */
  lemma DecodeEncode(hour: nat, minute: nat)
    requires minute < 100
    ensures HourText(Value(Encode(hour, minute))) == NatToString(hour)
    ensures MinuteText(Value(Encode(hour, minute))) == NatToString(minute)
    ensures ParseDecimal(HourText(Value(Encode(hour, minute)))) == hour
    ensures ParseDecimal(MinuteText(Value(Encode(hour, minute)))) == minute
  {
    PackedParts(hour, minute);
    if Encode(hour, minute) == 0 {
      assert hour == 0 && minute == 0;
      assert NatToString(0) == "0";
    }
    ParseNatToString(hour);
    ParseNatToString(minute);
  }

  /** `formatTiempo`: "" for an absent or null time, otherwise the hour `Math.floor(t / 100)`
      and the minute `t % 100`, each padded to two digits, around a colon. Reading the two
      digit groups back gives the hour and the minute. */
  function FormatTiempo(f: TimeField): (r: string)
    ensures !f.Value? ==> r == ""
    ensures f.Value? ==> |r| >= 5 && r[|r| - 3] == ':' && |r[|r| - 2..]| == 2
    ensures f.Value? ==> AllDigits(r[..|r| - 3]) && ParseDecimal(r[..|r| - 3]) == f.t / 100
    ensures f.Value? ==> AllDigits(r[|r| - 2..]) && ParseDecimal(r[|r| - 2..]) == f.t % 100
    ensures f.Value? && f.t < 10000 ==> |r| == 5
  {
    match f
    case Missing => ""
    case Null => ""
    case Value(t) =>
      var h, m := TwoDigits(t / 100), TwoDigits(t % 100);
      assert (h + ":" + m)[..|h + ":" + m| - 3] == h;
      assert (h + ":" + m)[|h + ":" + m| - 2..] == m;
      h + ":" + m
  }

  /** A saved time is shown with exactly the labels the pickers displayed for it. */
  lemma FormatTiempoEncoded(hour: nat, minute: nat)
    requires hour < 24 && minute < 60
    ensures FormatTiempo(Value(Encode(hour, minute))) == TwoDigits(hour) + ":" + TwoDigits(minute)
  {
    PackedParts(hour, minute);
    var t := Encode(hour, minute);
    assert FormatTiempo(Value(t)) == TwoDigits(t / 100) + ":" + TwoDigits(t % 100);
  }

  /** The hour and the minute are the quotient and the remainder of the packed value. */
  lemma PackedParts(hour: nat, minute: nat)
    requires minute < 100
    ensures Encode(hour, minute) / 100 == hour && Encode(hour, minute) % 100 == minute
  {
    var t := Encode(hour, minute);
    assert t == hour * 100 + minute;
  }

  lemma TwoDigitsExamples()
    ensures TwoDigits(0) == "00" && TwoDigits(5) == "05" && TwoDigits(9) == "09"
    ensures TwoDigits(18) == "18" && TwoDigits(45) == "45"
  {
    assert NatToString(0) == "0" && NatToString(9) == "9" && NatToString(5) == "5";
    assert NatToString(1) == "1" && NatToString(8) == "8" && NatToString(4) == "4";
    assert NatToString(18) == NatToString(1) + "8";
    assert NatToString(45) == NatToString(4) + "5";
  }

  /** Midnight, an early morning time and an evening time, as stored. */
  lemma FormatTiempoExamples()
    ensures FormatTiempo(Value(0)) == "00:00"
    ensures FormatTiempo(Value(905)) == "09:05"
    ensures FormatTiempo(Value(1845)) == "18:45"
  {
    TwoDigitsExamples();
    assert FormatTiempo(Value(0)) == TwoDigits(0) + ":" + TwoDigits(0);
    assert FormatTiempo(Value(905)) == TwoDigits(9) + ":" + TwoDigits(5);
    assert FormatTiempo(Value(1845)) == TwoDigits(18) + ":" + TwoDigits(45);
  }

}
