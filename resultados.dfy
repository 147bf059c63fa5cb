/** The results screen (screens/ResultadosScreen.js): the participants that have both
    times, stably sorted by packed arrival time, optionally narrowed to one gender, each
    shown with the formatted interval between its two times. */
module Resultados {
  import opened Wrappers
  import opened Seqs
  import opened Roster
  import opened Intervals

  /** The filter of `cargarResultados`: neither time is `null`. An absent time passes. */
  predicate HasTimes(p: Participant) {
    p.departure != Null && p.arrival != Null
  }

  /** The first step of `cargarResultados`. */
  function Finished(ps: seq<Participant>): (r: seq<Participant>)
    ensures forall p :: p in r <==> p in ps && p.departure != Null && p.arrival != Null
    ensures forall p :: multiset(r)[p] == if HasTimes(p) then multiset(ps)[p] else 0
    ensures IsSubseq(r, ps)
  {
    FilterIsSubseq(ps, HasTimes);
    Filter(ps, HasTimes)
  }

  /** The sort key `a.selectedArrivalTime`. Only entries with a numeric arrival time are
      ever sorted here (see `CargarResultados`); 0 for the others only makes it total. */
  function Key(p: Participant): nat {
    if p.arrival.Value? then p.arrival.t else 0
  }

  predicate Ascending(ps: seq<Participant>) {
    forall i, j :: 0 <= i < j < |ps| ==> Key(ps[i]) <= Key(ps[j])
  }

  /** Insert `p` in front of the first entry with a larger or equal key. */
  function Insert(p: Participant, ps: seq<Participant>): (r: seq<Participant>)
    ensures |r| == |ps| + 1
    decreases |ps|
  {
    if ps == [] || Key(p) <= Key(ps[0]) then [p] + ps
    else [ps[0]] + Insert(p, ps[1..])
  }

  /** Insertion adds `p` and loses nothing. */
  lemma {:induction false} InsertPermutes(p: Participant, ps: seq<Participant>)
    ensures multiset(Insert(p, ps)) == multiset(ps) + multiset{p}
    decreases |ps|
  {
    if ps != [] && Key(p) > Key(ps[0]) {
      InsertPermutes(p, ps[1..]);
      assert ps == [ps[0]] + ps[1..];
    }
  }

  /** Inserting into a sorted list keeps it sorted. */
  lemma {:induction false} InsertAscending(p: Participant, ps: seq<Participant>)
    requires Ascending(ps)
    ensures Ascending(Insert(p, ps))
    decreases |ps|
  {
    if ps == [] || Key(p) <= Key(ps[0]) {
      AscendingCons(p, ps);
    } else {
      AscendingTail(ps);
      InsertAscending(p, ps[1..]);
      InsertPermutes(p, ps[1..]);
      var rest := Insert(p, ps[1..]);
      forall x | x in rest
        ensures Key(ps[0]) <= Key(x)
      {
        assert x in multiset(rest);
      }
      AscendingCons(ps[0], rest);
    }
  }

  /** A sorted list stays sorted behind an entry no larger than any of it. */
  lemma AscendingCons(x: Participant, rest: seq<Participant>)
    requires Ascending(rest)
    requires forall y :: y in rest ==> Key(x) <= Key(y)
    ensures Ascending([x] + rest)
  {
    var r := [x] + rest;
    forall i, j | 0 <= i < j < |r|
      ensures Key(r[i]) <= Key(r[j])
    {
      assert r[j] == rest[j - 1];
      if i > 0 {
        assert r[i] == rest[i - 1];
      }
    }
  }

  /** `sort((a, b) => a.selectedArrivalTime - b.selectedArrivalTime)`: a stable sort, as
      `Array.prototype.sort` is required to be, written as insertion sort. */
  function SortByArrival(ps: seq<Participant>): (r: seq<Participant>)
    ensures multiset(r) == multiset(ps)
    ensures |r| == |ps|
    ensures Ascending(r)
    decreases |ps|
  {
    if ps == [] then []
    else
      assert ps == [ps[0]] + ps[1..];
      InsertAscending(ps[0], SortByArrival(ps[1..]));
      InsertPermutes(ps[0], SortByArrival(ps[1..]));
      Insert(ps[0], SortByArrival(ps[1..]))
  }

  function SameArrival(k: nat): Participant -> bool {
    (p: Participant) => Key(p) == k
  }

  lemma AscendingTail(ps: seq<Participant>)
    requires Ascending(ps) && ps != []
    ensures Ascending(ps[1..])
    ensures forall x :: x in ps ==> Key(ps[0]) <= Key(x)
  {
  }

  /** Stability: the entries sharing any one arrival time come out in their input order. */
  lemma {:induction false} SortStable(ps: seq<Participant>, k: nat)
    ensures Filter(SortByArrival(ps), SameArrival(k)) == Filter(ps, SameArrival(k))
    decreases |ps|
  {
    if ps != [] {
      SortStable(ps[1..], k);
      InsertStable(ps[0], SortByArrival(ps[1..]), k);
      FilterUnfold(ps, SameArrival(k));
    }
  }

  /** A filter keeps a sorted list sorted. */
  lemma {:induction false} FilterAscending(ps: seq<Participant>, f: Participant -> bool)
    requires Ascending(ps)
    ensures Ascending(Filter(ps, f))
    decreases |ps|
  {
    if ps != [] {
      AscendingTail(ps);
      FilterAscending(ps[1..], f);
      FilterUnfold(ps, f);
      if f(ps[0]) {
        AscendingCons(ps[0], Filter(ps[1..], f));
      }
    }
  }

  /** Where `p` goes in front: filtering keeps it in front of whatever survives. */
  lemma FilterInsertFront(p: Participant, ps: seq<Participant>, f: Participant -> bool)
    requires Ascending(ps)
    requires ps == [] || Key(p) <= Key(ps[0])
    ensures Filter(Insert(p, ps), f) == if f(p) then Insert(p, Filter(ps, f)) else Filter(ps, f)
  {
    FilterCons(p, ps, f);
    if f(p) {
      var kept := Filter(ps, f);
      if kept != [] {
        assert kept[0] in ps;
        AscendingTail(ps);
      }
    }
  }

  /** An entry with a larger key goes behind the head. */
  lemma InsertBehind(p: Participant, ps: seq<Participant>)
    requires ps != [] && Key(p) > Key(ps[0])
    ensures Insert(p, ps) == [ps[0]] + Insert(p, ps[1..])
  {
  }

  /** Where a kept `p` goes behind the head, it still goes behind it once filtered. */
  lemma FilterInsertBehindKept(p: Participant, ps: seq<Participant>, f: Participant -> bool)
    requires ps != [] && Key(p) > Key(ps[0]) && f(p)
    requires Filter(Insert(p, ps[1..]), f) == Insert(p, Filter(ps[1..], f))
    ensures Filter(Insert(p, ps), f) == Insert(p, Filter(ps, f))
  {
    InsertBehind(p, ps);
    FilterCons(ps[0], Insert(p, ps[1..]), f);
    FilterUnfold(ps, f);
    if f(ps[0]) {
      InsertBehindKept(p, ps[0], Filter(ps[1..], f));
    }
  }

  lemma InsertBehindKept(p: Participant, head: Participant, kept: seq<Participant>)
    requires Key(p) > Key(head)
    ensures Insert(p, [head] + kept) == [head] + Insert(p, kept)
  {
    InsertBehind(p, [head] + kept);
    assert ([head] + kept)[1..] == kept;
  }

  /** A dropped `p` leaves the filtered list as it was. */
  lemma FilterInsertBehindDropped(p: Participant, ps: seq<Participant>, f: Participant -> bool)
    requires ps != [] && Key(p) > Key(ps[0]) && !f(p)
    requires Filter(Insert(p, ps[1..]), f) == Filter(ps[1..], f)
    ensures Filter(Insert(p, ps), f) == Filter(ps, f)
  {
    InsertBehind(p, ps);
    FilterCons(ps[0], Insert(p, ps[1..]), f);
    FilterUnfold(ps, f);
  }

  /** Filtering commutes with one insertion step. */
  lemma {:induction false} FilterInsert(p: Participant, ps: seq<Participant>, f: Participant -> bool)
    requires Ascending(ps)
    ensures Filter(Insert(p, ps), f) == if f(p) then Insert(p, Filter(ps, f)) else Filter(ps, f)
    decreases |ps|
  {
    if ps == [] || Key(p) <= Key(ps[0]) {
      FilterInsertFront(p, ps, f);
    } else {
      AscendingTail(ps);
      FilterInsert(p, ps[1..], f);
      if f(p) {
        FilterInsertBehindKept(p, ps, f);
      } else {
        FilterInsertBehindDropped(p, ps, f);
      }
    }
  }

  /** Inserting in front of entries that all share `p`'s key puts `p` first. */
  lemma InsertAmongEqual(p: Participant, qs: seq<Participant>)
    requires forall q :: q in qs ==> Key(q) == Key(p)
    ensures Insert(p, qs) == [p] + qs
  {
    if qs != [] {
      assert qs[0] in qs;
    }
  }

  /** One insertion step is stable: `p` lands in front of the entries with its key. */
  lemma InsertStable(p: Participant, ps: seq<Participant>, k: nat)
    requires Ascending(ps)
    ensures Filter(Insert(p, ps), SameArrival(k)) == (if Key(p) == k then [p] else []) + Filter(ps, SameArrival(k))
  {
    FilterInsert(p, ps, SameArrival(k));
    if Key(p) == k {
      InsertAmongEqual(p, Filter(ps, SameArrival(k)));
    } else {
      assert [] + Filter(ps, SameArrival(k)) == Filter(ps, SameArrival(k));
    }
  }

  /** Filtering after the stable sort gives what sorting the filtered list gives. */
  lemma {:induction false} FilterCommutesWithSort(ps: seq<Participant>, f: Participant -> bool)
    ensures Filter(SortByArrival(ps), f) == SortByArrival(Filter(ps, f))
    decreases |ps|
  {
    if ps != [] {
      FilterCommutesWithSort(ps[1..], f);
      FilterInsert(ps[0], SortByArrival(ps[1..]), f);
      FilterUnfold(ps, f);
      if f(ps[0]) {
        var kept := Filter(ps[1..], f);
        assert ([ps[0]] + kept)[0] == ps[0] && ([ps[0]] + kept)[1..] == kept;
      }
    }
  }

  /** `cargarResultados` after the list is read: the entries with both times, sorted by
      arrival. Entries that pass the filter with an absent arrival time would make the
      comparator return NaN, whose ordering is engine-dependent; they are excluded. */
  function CargarResultados(ps: seq<Participant>): (r: seq<Participant>)
    requires forall p :: p in ps && HasTimes(p) ==> p.arrival.Value?
    ensures forall p :: p in r <==> p in ps && HasTimes(p)
    ensures multiset(r) == multiset(Finished(ps))
    ensures forall i, j :: 0 <= i < j < |r| ==> r[i].arrival.t <= r[j].arrival.t
  {
    var r := SortByArrival(Finished(ps));
    assert forall p :: p in r <==> p in multiset(r);
    r
  }

  /** Ties keep the stored order. */
  lemma CargarResultadosStable(ps: seq<Participant>, k: nat)
    requires forall p :: p in ps && HasTimes(p) ==> p.arrival.Value?
    ensures Filter(CargarResultados(ps), SameArrival(k)) == Filter(Finished(ps), SameArrival(k))
  {
    SortStable(Finished(ps), k);
  }

  function SexoIs(g: string): Participant -> bool {
    (p: Participant) => p.sexo == g
  }

  /** `filteredResultados`: the list itself when no gender is selected (the empty string
      is falsy), otherwise the entries of that gender in their order. */
  function FilteredResultados(rs: seq<Participant>, g: string): (r: seq<Participant>)
    ensures g == "" ==> r == rs
    ensures g != "" ==> forall p :: multiset(r)[p] == if p.sexo == g then multiset(rs)[p] else 0
    ensures IsSubseq(r, rs)
    ensures Ascending(rs) ==> Ascending(r)
  {
    if g == "" then
      SubseqReflexive(rs);
      rs
    else
      FilterIsSubseq(rs, SexoIs(g));
      if Ascending(rs) then FilterAscending(rs, SexoIs(g)); Filter(rs, SexoIs(g))
      else Filter(rs, SexoIs(g))
  }

  /** The screen narrows to a gender after sorting; narrowing first and then sorting would
      show the same list. */
  lemma GenderFilterAfterSort(ps: seq<Participant>, g: string)
    requires forall p :: p in ps && HasTimes(p) ==> p.arrival.Value?
    ensures FilteredResultados(CargarResultados(ps), g) == SortByArrival(FilteredResultados(Finished(ps), g))
  {
    if g != "" {
      FilterCommutesWithSort(Finished(ps), SexoIs(g));
    }
  }

  /** The interval beside each result (`renderParticipanteItem`). `diff(a, b)` stands for
      the date library's `moment(a, 'Hmm').diff(moment(b, 'Hmm'), 'minutes')`, which is
      not part of this model; the screen takes the arrival's difference from the
      departure. A positive interval reads back unchanged; any other shows as nothing. */
  function ResultadoIntervalo(p: Participant, diff: (TimeField, TimeField) -> int): (r: string)
    ensures diff(p.arrival, p.departure) > 0 ==> ReadInterval(r) == Some(diff(p.arrival, p.departure))
    ensures diff(p.arrival, p.departure) <= 0 ==> r == ""
  {
    var minutos := diff(p.arrival, p.departure);
    if minutos > 0 then ReadFormatResultados(minutos); FormatResultados(minutos)
    else FormatResultados(minutos)
  }

}
