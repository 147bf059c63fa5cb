/** The participant record every screen reads from and writes back to the store key
    'participantes', as one ordered list. */
module Roster {
  import opened Wrappers
  import opened Decimal

  /** A time field of a stored record. JavaScript tells three cases apart: the property is
      absent (`undefined`, as on a freshly registered participant), explicitly `null`, or a
      packed time of day HHMM written as a plain number (930 is 09:30). */
  datatype TimeField = Missing | Null | Value(t: nat)

  /** The four picker strings the arrival screen adds to each record when it loads the
      list (hour and minute of arrival and of departure); they are written back with it. */
  datatype Decoded = Decoded(arrivalHour: string, arrivalMinute: string,
                             departureHour: string, departureMinute: string)

  /** A stored participant. `id` is the empty string where the stored record has no truthy
      id. `edad` is the age as `parseInt` read it at registration; `tiempo` is the unused
      text field registration writes. `decoded` is None until the arrival screen has
      loaded the record. */
  datatype Participant = Participant(
    id: string,
    nombre: string,
    edad: nat,
    cedula: string,
    sexo: string,
    tiempo: string,
    arrival: TimeField,
    departure: TimeField,
    decoded: Option<Decoded>)

  /** A national identity number as the app accepts it: exactly ten ASCII digits. */
  predicate IsCedula(s: string) {
    |s| == 10 && AllDigits(s)
  }

}
