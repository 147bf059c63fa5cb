/** The lookup screen (screens/ConsultasScreen.js): a ten-digit identity number is looked
    up in the stored list, and the match is shown with the interval between its times. */
module Consultas {
  import opened Wrappers
  import opened Decimal
  import opened Seqs
  import opened Roster
  import opened Intervals

  const NotFoundMessage := "Participante no encontrado"
  const InvalidMessage := "La cédula debe contener solo números y tener una longitud de 10 dígitos"

  /** `/^\d+$/.test(s)`, read as the pattern is built: one digit, then either the end or
      another match. It holds of exactly the non-empty strings of ASCII digits. */
  function IsNumeric(s: string): (b: bool)
    ensures b <==> |s| > 0 && AllDigits(s)
    decreases |s|
  {
    |s| > 0 && IsDigit(s[0]) && (|s| == 1 || IsNumeric(s[1..]))
  }

  /** What a search ends in: a match, no match, or a malformed query. */
  datatype Outcome = Found(p: Participant) | NotFound | Invalid

  function HasCedula(c: string): Participant -> bool {
    (p: Participant) => p.cedula == c
  }

  /** The decision of `handleSearch`: a query of ten digits is looked up with `find`,
      anything else is refused. */
  function Search(ps: seq<Participant>, text: string): (r: Outcome)
    ensures r.Invalid? <==> !IsCedula(text)
    ensures r.NotFound? <==> IsCedula(text) && forall p :: p in ps ==> p.cedula != text
    ensures r.Found? ==>
      r.p.cedula == text &&
      exists k :: 0 <= k < |ps| && ps[k] == r.p && forall j :: 0 <= j < k ==> ps[j].cedula != text
  {
    if IsNumeric(text) && |text| == 10 then
      match Find(ps, HasCedula(text))
      case Some(p) => Found(p)
      case None => NotFound
    else Invalid
  }

  /** What the search field can hold: the input keeps at most ten characters and the
      handler accepts only digit strings and the empty string. */
  predicate SearchTextOk(s: string) {
    |s| <= 10 && AllDigits(s)
  }


  /** The first entry carrying the number is the one shown, whatever follows it. */
  lemma SearchFindsFirst(ps: seq<Participant>, text: string, i: nat)
    requires IsCedula(text) && i < |ps| && ps[i].cedula == text
    requires forall j :: 0 <= j < i ==> ps[j].cedula != text
    ensures Search(ps, text) == Found(ps[i])
  {
    assert ps[i] in ps;
    var r := Search(ps, text);
    var k :| 0 <= k < |ps| && ps[k] == r.p && forall j :: 0 <= j < k ==> ps[j].cedula != text;
    assert !(k < i) && !(i < k);
  }

  /** `formatIntervaloTiempo(selectedArrivalTime, selectedDepartureTime)`. `diff(a, b)`
      stands for `moment(a, 'Hmm').diff(moment(b, 'Hmm'), 'minutes')`; here it is the
      departure's difference from the arrival. Nothing is shown while either time is
      `null` or absent. */
  function TiempoConsulta(p: Participant, diff: (TimeField, TimeField) -> int): (r: string)
    ensures !(p.arrival.Value? && p.departure.Value?) ==> r == ""
    ensures p.arrival.Value? && p.departure.Value? ==>
      var d := diff(p.departure, p.arrival);
      (d == 0 <==> r == "") &&
      (d > 0 ==> ReadInterval(r) == Some(d)) &&
      (d <= -60 ==> r == " " + FormatResultados(-d)) &&
      (-60 < d < 0 ==> r == "  " + FormatResultados(-d))
  {
    if p.arrival.Null? || p.departure.Null? || p.arrival.Missing? || p.departure.Missing? then ""
    else
      var d := diff(p.departure, p.arrival);
      ConsultasVersusResultados(d);
      if d > 0 then ReadFormatResultados(d); FormatConsultas(d) else FormatConsultas(d)
  }

  /** The lookup screen's component state. `store` is the 'participantes' entry of the
      key-value store. */
  class ConsultasScreen {
    var store: seq<Participant>
    var participantes: seq<Participant>
    var filteredParticipante: Option<Participant>
    var searchText: string
    var error: string

    ghost predicate Valid()
      reads this
    {
      SearchTextOk(searchText)
    }

    constructor (stored: seq<Participant>)
      ensures Valid() && store == stored
      ensures participantes == [] && filteredParticipante == None && searchText == "" && error == ""
    {
      store := stored;
      participantes := [];
      filteredParticipante := None;
      searchText := "";
      error := "";
    }

    /** `cargarParticipantes`: the stored list as it is. */
    method Load()
      modifies this`participantes
      ensures participantes == store
    {
      participantes := store;
    }

    /** The field's `onChangeText`: digits or nothing are taken, anything else is ignored.
        The input never passes more than ten characters. */
    method OnChangeText(text: string)
      requires Valid() && |text| <= 10
      modifies this`searchText
      ensures Valid()
      ensures searchText == if AllDigits(text) then text else old(searchText)
    {
      if IsNumeric(text) || text == "" {
        searchText := text;
      }
    }

    /** "Buscar" is pressable only with ten characters typed; what the field guard lets
        through, ten characters long, is a well-formed identity number. */
    function SearchEnabled(): (e: bool)
      reads this
      ensures e && SearchTextOk(searchText) ==> IsCedula(searchText)
      ensures !e ==> !IsCedula(searchText)
    {
      |searchText| == 10
    }

    /** `handleSearch`: show the match, or clear it and show why there is none. */
    method HandleSearch()
      modifies this`filteredParticipante, this`error
      ensures Search(participantes, searchText).Found? ==>
        filteredParticipante == Some(Search(participantes, searchText).p) && error == ""
      ensures Search(participantes, searchText).NotFound? ==>
        filteredParticipante == None && error == NotFoundMessage
      ensures Search(participantes, searchText).Invalid? ==>
        filteredParticipante == None && error == InvalidMessage
    {
      error := "";
      if IsNumeric(searchText) && |searchText| == 10 {
        var filtered := Find(participantes, HasCedula(searchText));
        if filtered.Some? {
          filteredParticipante := filtered;
        } else {
          error := NotFoundMessage;
          filteredParticipante := None;
        }
      } else {
        error := InvalidMessage;
        filteredParticipante := None;
      }
    }
  }

  /** With the button enabled, the query the screen holds is never refused. */
  lemma EnabledSearchIsValid(screen: ConsultasScreen)
    requires screen.Valid() && screen.SearchEnabled()
    ensures !Search(screen.participantes, screen.searchText).Invalid?
  {
  }

}
