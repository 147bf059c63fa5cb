/** The arrival screen (screens/LLegadaScreen.js): it loads the participant list, records
    departure and arrival times for a selected participant, and deletes participants
    after a confirmation dialog. The list edits are functions; the screen's state fields
    and its handlers are a class. */
module Llegada {
  import opened Wrappers
  import opened Decimal
  import opened Seqs
  import opened Roster
  import opened TimeCodec

  /** One record as the load step rebuilds it: the stored id if truthy, else a fresh one
      (`new Date().getTime().toString()`, the clock reading being `stamp`), and the four
      picker strings decoded from the packed times. */
  function LoadEntry(p: Participant, stamp: nat): (r: Participant)
    ensures r.id != ""
    ensures p.id != "" ==> r.id == p.id
    ensures p.id == "" ==> AllDigits(r.id) && ParseDecimal(r.id) == stamp
    ensures r.(id := p.id, decoded := p.decoded) == p
    ensures r.decoded.Some?
  {
    ParseNatToString(stamp);
    p.(id := if p.id != "" then p.id else NatToString(stamp),
       decoded := Some(Decoded(HourText(p.arrival), MinuteText(p.arrival),
                               HourText(p.departure), MinuteText(p.departure))))
  }

  /** The four decoded strings of a loaded record read back as the hour and the minute of
      each packed time, and as 0 for a falsy one. */
  lemma LoadEntryDecodes(p: Participant, stamp: nat)
    ensures var d := LoadEntry(p, stamp).decoded.value;
      AllDigits(d.arrivalHour) && AllDigits(d.arrivalMinute) &&
      AllDigits(d.departureHour) && AllDigits(d.departureMinute) &&
      ParseDecimal(d.arrivalHour) == (if Truthy(p.arrival) then p.arrival.t / 100 else 0) &&
      ParseDecimal(d.arrivalMinute) == (if Truthy(p.arrival) then p.arrival.t % 100 else 0) &&
      ParseDecimal(d.departureHour) == (if Truthy(p.departure) then p.departure.t / 100 else 0) &&
      ParseDecimal(d.departureMinute) == (if Truthy(p.departure) then p.departure.t % 100 else 0)
  {
  }

  /** The `map` of the load step. `stamps[i]` is the clock reading taken for entry i. */
  function Loaded(ps: seq<Participant>, stamps: seq<nat>): (r: seq<Participant>)
    requires |stamps| == |ps|
    ensures |r| == |ps|
    ensures forall i :: 0 <= i < |r| ==> r[i].id != ""
    ensures forall i :: 0 <= i < |r| ==> ps[i].id != "" ==> r[i].id == ps[i].id
    ensures forall i :: 0 <= i < |r| ==> ps[i].id == "" ==> r[i].id == NatToString(stamps[i])
    ensures forall i :: 0 <= i < |r| ==> r[i].(id := ps[i].id, decoded := ps[i].decoded) == ps[i]
    ensures forall i :: 0 <= i < |r| ==> r[i].decoded.Some?
    ensures forall i :: 0 <= i < |r| ==> r[i] == LoadEntry(ps[i], stamps[i])
    decreases |ps|
  {
    if ps == [] then [] else [LoadEntry(ps[0], stamps[0])] + Loaded(ps[1..], stamps[1..])
  }

  /** Entries without an id that are loaded within the same millisecond get the same id;
      the whole `map` normally runs within one. */
  lemma SameStampSameId(ps: seq<Participant>, stamps: seq<nat>, i: nat, j: nat)
    requires |stamps| == |ps| && i < |ps| && j < |ps|
    requires ps[i].id == "" && ps[j].id == "" && stamps[i] == stamps[j]
    ensures Loaded(ps, stamps)[i].id == Loaded(ps, stamps)[j].id
  {
  }

  /** The `map` of the save handler: every entry whose id is `id` gets both packed times. */
  function RecordTimes(ps: seq<Participant>, id: string, arrival: nat, departure: nat): (r: seq<Participant>)
    ensures |r| == |ps|
    ensures forall i :: 0 <= i < |ps| && ps[i].id == id ==>
              r[i] == ps[i].(arrival := Value(arrival), departure := Value(departure))
    ensures forall i :: 0 <= i < |ps| && ps[i].id != id ==> r[i] == ps[i]
    decreases |ps|
  {
    if ps == [] then []
    else
      var p := ps[0];
      var q := if p.id == id then p.(arrival := Value(arrival), departure := Value(departure)) else p;
      [q] + RecordTimes(ps[1..], id, arrival, departure)
  }

  function HasId(id: string): Participant -> bool {
    (p: Participant) => p.id == id
  }

  function HasOtherId(id: string): Participant -> bool {
    (p: Participant) => p.id != id
  }

  /** The `filter` of the delete confirmation: the entries whose id is not `id`, in order. */
  function RemoveId(ps: seq<Participant>, id: string): (r: seq<Participant>)
    ensures forall p :: p in r <==> p in ps && p.id != id
    ensures forall p :: multiset(r)[p] == if p.id != id then multiset(ps)[p] else 0
    ensures IsSubseq(r, ps)
  {
    FilterIsSubseq(ps, HasOtherId(id));
    Filter(ps, HasOtherId(id))
  }

  /** Recording times touches only the entries with that id: dropping them afterwards
      gives what dropping them before gives. */
  lemma {:induction false} RecordTimesOnlyTouchesId(ps: seq<Participant>, id: string, arrival: nat, departure: nat)
    ensures RemoveId(RecordTimes(ps, id, arrival, departure), id) == RemoveId(ps, id)
    decreases |ps|
  {
    if ps != [] {
      var r := RecordTimes(ps, id, arrival, departure);
      RecordTimesOnlyTouchesId(ps[1..], id, arrival, departure);
      assert r == [r[0]] + RecordTimes(ps[1..], id, arrival, departure);
      FilterCons(r[0], RecordTimes(ps[1..], id, arrival, departure), HasOtherId(id));
      FilterCons(ps[0], ps[1..], HasOtherId(id));
      assert [ps[0]] + ps[1..] == ps;
    }
  }

  /** Saving and then loading again: the record's four decoded strings are the values the
      pickers held when the times were saved. */
  lemma ReloadShowsSavedPickers(p: Participant, stamp: nat, ah: nat, am: nat, dh: nat, dm: nat)
    requires ah < 24 && am < 60 && dh < 24 && dm < 60
    ensures LoadEntry(p.(arrival := Value(Encode(ah, am)), departure := Value(Encode(dh, dm))), stamp).decoded ==
      Some(Decoded(NatToString(ah), NatToString(am), NatToString(dh), NatToString(dm)))
  {
    DecodeEncode(ah, am);
    DecodeEncode(dh, dm);
  }

  /** Removing an id twice removes nothing more. */
  lemma RemoveIdIdempotent(ps: seq<Participant>, id: string)
    ensures RemoveId(RemoveId(ps, id), id) == RemoveId(ps, id)
  {
    var r := RemoveId(ps, id);
    FilterKeepsAll(r, HasOtherId(id));
  }

  /** The arrival screen's component state. `store` is the 'participantes' entry of the
      device's key-value store as this screen last read or wrote it. */
  class LlegadaScreen {
    var store: seq<Participant>
    var participantes: seq<Participant>
    var selected: Option<Participant>
    var modalVisible: bool
    var arrivalHour: nat
    var arrivalMinute: nat
    var departureHour: nat
    var departureMinute: nat
    var deleteConfirmationVisible: bool
    var toDelete: Option<Participant>

    /** The pickers only offer hours 0..23 and minutes 0..59. */
    ghost predicate Valid()
      reads this
    {
      arrivalHour < 24 && arrivalMinute < 60 && departureHour < 24 && departureMinute < 60
    }

    constructor (stored: seq<Participant>)
      ensures Valid()
      ensures store == stored && participantes == []
      ensures selected == None && !modalVisible
      ensures arrivalHour == 0 && arrivalMinute == 0 && departureHour == 0 && departureMinute == 0
      ensures !deleteConfirmationVisible && toDelete == None
    {
      store := stored;
      participantes := [];
      selected := None;
      modalVisible := false;
      arrivalHour, arrivalMinute, departureHour, departureMinute := 0, 0, 0, 0;
      deleteConfirmationVisible := false;
      toDelete := None;
    }

    /** `cargarParticipantes`: read the stored list and give every entry an id and its
        decoded picker strings. The store itself is not written. */
    method Load(stamps: seq<nat>)
      requires |stamps| == |store|
      modifies this`participantes
      ensures participantes == Loaded(store, stamps)
    {
      participantes := Loaded(store, stamps);
    }

    /** `handleParticipantePress`: open the detail dialog for `p`. */
    method Select(p: Participant)
      modifies this`selected, this`modalVisible
      ensures selected == Some(p) && modalVisible
    {
      selected := Some(p);
      modalVisible := true;
    }

    /** The close button of the detail dialog; the selection is kept. */
    method CloseDetails()
      modifies this`modalVisible
      ensures !modalVisible
    {
      modalVisible := false;
    }

    method PickDepartureHour(hour: nat)
      requires Valid() && hour < 24
      modifies this`departureHour
      ensures Valid() && departureHour == hour
    {
      departureHour := hour;
    }

    method PickDepartureMinute(minute: nat)
      requires Valid() && minute < 60
      modifies this`departureMinute
      ensures Valid() && departureMinute == minute
    {
      departureMinute := minute;
    }

    method PickArrivalHour(hour: nat)
      requires Valid() && hour < 24
      modifies this`arrivalHour
      ensures Valid() && arrivalHour == hour
    {
      arrivalHour := hour;
    }

    method PickArrivalMinute(minute: nat)
      requires Valid() && minute < 60
      modifies this`arrivalMinute
      ensures Valid() && arrivalMinute == minute
    {
      arrivalMinute := minute;
    }

    /** `handleGuardarTiempo`. With no selection nothing happens. Otherwise both packed
        times (hour * 100 + minute) are written into every entry with the selected id,
        the new list is stored, the dialog closes, the selection is cleared and the
        pickers return to 0. */
    method SaveTimes()
      requires Valid()
      modifies this`participantes, this`store, this`selected, this`modalVisible
      modifies this`arrivalHour, this`arrivalMinute, this`departureHour, this`departureMinute
      ensures Valid()
      ensures old(selected).None? ==>
        participantes == old(participantes) && store == old(store) && selected == None &&
        modalVisible == old(modalVisible) &&
        arrivalHour == old(arrivalHour) && arrivalMinute == old(arrivalMinute) &&
        departureHour == old(departureHour) && departureMinute == old(departureMinute)
      ensures old(selected).Some? ==>
        participantes == RecordTimes(old(participantes), old(selected).value.id,
                                     old(arrivalHour) * 100 + old(arrivalMinute),
                                     old(departureHour) * 100 + old(departureMinute)) &&
        store == participantes && selected == None && !modalVisible &&
        arrivalHour == 0 && arrivalMinute == 0 && departureHour == 0 && departureMinute == 0
    {
      if selected.Some? {
        var arrival := Encode(arrivalHour, arrivalMinute);
        var departure := Encode(departureHour, departureMinute);
        assert arrival == arrivalHour * 100 + arrivalMinute;
        assert departure == departureHour * 100 + departureMinute;
        participantes := RecordTimes(participantes, selected.value.id, arrival, departure);
        store := participantes;
        modalVisible := false;
        selected := None;
        arrivalHour, arrivalMinute, departureHour, departureMinute := 0, 0, 0, 0;
      }
    }

    /** `borrarParticipante`: remember the first entry with that id (None where `find`
        gives `undefined`) and ask for confirmation. The list and the store are untouched. */
    method RequestDelete(id: string)
      modifies this`toDelete, this`deleteConfirmationVisible
      ensures toDelete == Find(participantes, HasId(id)) && deleteConfirmationVisible
    {
      toDelete := Find(participantes, HasId(id));
      deleteConfirmationVisible := true;
    }

    /** The "Cancelar" button: hide the confirmation; the target stays recorded. */
    method CancelDelete()
      modifies this`deleteConfirmationVisible
      ensures !deleteConfirmationVisible
    {
      deleteConfirmationVisible := false;
    }

    /** `confirmarBorrarParticipante`. With no target, reading its id throws; the handler
        catches it and nothing changes. Otherwise every entry with the target's id is
        removed, the new list is stored and the confirmation is hidden. The target itself
        is not cleared. */
    method ConfirmDelete()
      modifies this`participantes, this`store, this`deleteConfirmationVisible
      ensures old(toDelete).None? ==>
        participantes == old(participantes) && store == old(store) &&
        deleteConfirmationVisible == old(deleteConfirmationVisible)
      ensures old(toDelete).Some? ==>
        participantes == RemoveId(old(participantes), old(toDelete).value.id) &&
        store == participantes && !deleteConfirmationVisible
    {
      if toDelete.Some? {
        var remaining := RemoveId(participantes, toDelete.value.id);
        store := remaining;
        participantes := remaining;
        deleteConfirmationVisible := false;
      }
    }
  }

}
