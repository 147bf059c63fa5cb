# Race timing app: a verified model of its screen logic

The app registers race participants, records the time each one left and arrived, lists
finishers in order of arrival, and looks one participant up by national identity number
(cédula). Every screen reads the whole participant list from one key-value store entry
('participantes'), changes it, and writes it back. This project models what the four screens
do with that list and with their own component state, and proves what they promise:

- `Roster`: the stored participant record. A time field is `Missing` (property absent),
  `Null`, or `Value(t)` with `t` a packed time of day HHMM (930 is 09:30).
- `Decimal`, `JsNumber`, `Seqs`, `Wrappers`: the JavaScript building blocks the screens use:
  `toString`, `parseInt`, `padStart(2, '0')`, `Math.floor`, the truncating `%`, `filter`,
  `find`.
- `TimeCodec`: the arrival screen's packing of two pickers into HHMM, its decoding on
  load, and `formatTiempo`.
- `Llegada`: the arrival screen: load with id assignment, recording times, the two-step
  delete, as list functions plus a `LlegadaScreen` class for the component state.
- `Inscripciones`: the registration screen: input sanitisers, the two validation checks,
  the append of a new record, as functions plus an `InscripcionesScreen` class.
- `Resultados`: the results query: the `null` filter, a stable sort by arrival and the
  gender filter, with the stability and commutation laws.
- `Intervals`: the two interval formatters (results and lookup), a reader that turns a
  rendering back into minutes, and how the two formatters relate.
- `Consultas`: the lookup screen: the search decision, the field guard, the displayed
  interval, and a `ConsultasScreen` class.

The date library's minute difference (`moment(x, 'Hmm').diff(...)`) is not part of this
model; it is a parameter `diff`. The wall clock behind `generateUniqueId` is a parameter
(`stamp`, `now`). The store is a `store` field of each screen class, written where the
handler writes it.

Three behaviours of the code worth knowing:

- The results filter drops only entries with a `null` time; an absent (`undefined`) time
  passes (`!== null` is true for it).
- The two screens subtract in opposite orders: results shows arrival minus departure, and
  the lookup shows departure minus arrival.
- The lookup formatter marks a negative interval with a leading blank. When the magnitude is
  under an hour, the separator test also sees that blank, so two blanks are written
  (`"  5 minutos"`). `Intervals.ConsultasVersusResultados` states both cases.

## Model

| member | source | states |
|---|---|---|
| Decimal.NatToString | screens/LLegadaScreen.js:33 | `toString` of a non-negative integer: only digits, one digit exactly below 10, two exactly in 10..99, no leading zero |
| Decimal.ParseNatToString | screens/LLegadaScreen.js:33-36 | `parseInt` of what `toString` wrote gives the number back |
| Decimal.NatToStringInjective | screens/LLegadaScreen.js:8-10 | different clock readings give different generated ids |
| Decimal.ParseConcat | screens/LLegadaScreen.js:56 | the value of two concatenated digit strings is the first shifted by the second's length plus the second |
| Decimal.PadStart2 | screens/LLegadaScreen.js:56 | `padStart(2, '0')`: strings of length two or more are kept; shorter ones get leading '0's up to length two and end with the original |
| Decimal.ParsePadStart2 | screens/LLegadaScreen.js:56 | zero padding keeps a digit string's value |
| JsNumber.FloorDiv | screens/ResultadosScreen.js:47 | `Math.floor(a / b)` is the largest q with q * b <= a |
| JsNumber.Rem | screens/ResultadosScreen.js:48 | JavaScript `%`: the remainder has the dividend's sign, magnitude below the divisor, and completes truncated division |
| Seqs.Filter | screens/ResultadosScreen.js:18 | `filter`: an element is kept iff it was there and passes; multiplicities are kept for passing elements and zero for the rest |
| Seqs.FilterIsSubseq | screens/ResultadosScreen.js:90 | `filter` keeps the relative order |
| Seqs.FilterKeepsAll | screens/InscripcionesScreen.js:95 | a filter every element passes returns the input |
| Seqs.FindIndex | screens/LLegadaScreen.js:78 | the index of the first passing element, or none exactly when no element passes |
| Seqs.Find | screens/ConsultasScreen.js:33 | `find`: the first passing element, or none exactly when no element passes |
| TimeCodec.TwoDigits | screens/LLegadaScreen.js:174 | a picker label is `padStart(2, '0')` of the number, two long below 100, and parses back to the number |
| TimeCodec.PackedText | screens/LLegadaScreen.js:56 | the text the save handler parses is a digit string, so `parseInt` reads all of it |
| TimeCodec.PackedTextLabels | screens/LLegadaScreen.js:56 | that text is the two picker labels side by side: four long for two-digit values, at least four long always |
| TimeCodec.Encode | screens/LLegadaScreen.js:56-57 | the saved packed value is hour * 100 + minute whenever the minute has two digits |
| TimeCodec.EncodeIsPacked | screens/LLegadaScreen.js:56-57 | `parseInt` of the two padded picker values concatenated is hour * 100 + minute |
| TimeCodec.EncodeOrder | screens/ResultadosScreen.js:19 | packed values order and equate exactly as the (hour, minute) pairs they encode, so the numeric sort is by time of day |
| TimeCodec.HourText | screens/LLegadaScreen.js:33-36 | the hour string the load step writes is a digit string reading as `Math.floor(t / 100)` for a truthy time and 0 otherwise |
| TimeCodec.MinuteText | screens/LLegadaScreen.js:33-36 | the minute string the load step writes is a digit string reading as `t % 100` for a truthy time and 0 otherwise |
| TimeCodec.DecodeEncode | screens/LLegadaScreen.js:33-36 | decoding a packed value gives back the encoding hour and minute as strings, 00:00 included (falsy branch) |
| TimeCodec.FormatTiempo | screens/LLegadaScreen.js:119-128 | `""` for null and absent; otherwise hour digits, ':', two minute digits, parsing back to `t / 100` and `t % 100`; five characters below 10000 |
| TimeCodec.FormatTiempoEncoded | screens/LLegadaScreen.js:119-128 | a saved time is shown with the picker labels of its hour and minute |
| TimeCodec.PackedParts | screens/LLegadaScreen.js:123-124 | `Math.floor(t / 100)` and `t % 100` of a packed value are its hour and minute |
| TimeCodec.TwoDigitsExamples | screens/LLegadaScreen.js:174 | labels "00", "05", "09", "18", "45" |
| TimeCodec.FormatTiempoExamples | screens/LLegadaScreen.js:119-128 | 0, 905 and 1845 render as "00:00", "09:05", "18:45" |
| Llegada.LoadEntry | screens/LLegadaScreen.js:30-36 | one loaded record: a non-empty id, the stored one if truthy, else one that reads back as its clock reading; decoded picker strings present; nothing else changed |
| Llegada.LoadEntryDecodes | screens/LLegadaScreen.js:33-36 | the four decoded strings of a loaded record are digit strings reading back as the hour and minute of each packed time, and as 0 for a falsy time |
| Llegada.Loaded | screens/LLegadaScreen.js:30-37 | loading keeps count and order and turns entry i into LoadEntry of entry i and its clock reading: a non-empty id (kept if present, else from its clock reading), the decoded picker strings, nothing else changed |
| Llegada.SameStampSameId | screens/LLegadaScreen.js:8-10 | two id-less entries loaded within the same millisecond get the same id |
| Llegada.ReloadShowsSavedPickers | screens/LLegadaScreen.js:33-36 | after saving, the reloaded entry's decoded strings are the saved picker values |
| Llegada.RecordTimes | screens/LLegadaScreen.js:58-62 | length kept; entries with the selected id get both packed times; all others are unchanged |
| Llegada.RecordTimesOnlyTouchesId | screens/LLegadaScreen.js:58-62 | leaving out the selected id, the list before and after saving is the same |
| Llegada.RemoveId | screens/LLegadaScreen.js:85 | exactly the entries with another id remain, with their multiplicities and in order |
| Llegada.RemoveIdIdempotent | screens/LLegadaScreen.js:85 | removing an id a second time changes nothing |
| Llegada.LlegadaScreen.constructor | screens/LLegadaScreen.js:13-21 | empty list, no selection, dialogs closed, pickers at 0, no delete target |
| Llegada.LlegadaScreen.Load | screens/LLegadaScreen.js:24-39 | the list becomes the loaded store contents |
| Llegada.LlegadaScreen.Select | screens/LLegadaScreen.js:48-52 | the pressed participant is selected and the detail dialog opens |
| Llegada.LlegadaScreen.CloseDetails | screens/LLegadaScreen.js:154-157 | the detail dialog closes |
| Llegada.LlegadaScreen.PickDepartureHour | screens/LLegadaScreen.js:168-175 | the departure hour takes a value in 0..23 |
| Llegada.LlegadaScreen.PickDepartureMinute | screens/LLegadaScreen.js:177-185 | the departure minute takes a value in 0..59 |
| Llegada.LlegadaScreen.PickArrivalHour | screens/LLegadaScreen.js:189-197 | the arrival hour takes a value in 0..23 |
| Llegada.LlegadaScreen.PickArrivalMinute | screens/LLegadaScreen.js:198-206 | the arrival minute takes a value in 0..59 |
| Llegada.LlegadaScreen.SaveTimes | screens/LLegadaScreen.js:54-75 | with no selection nothing changes; otherwise the list and the store become `RecordTimes` with the packed picker values, the dialog closes, the selection clears, the pickers return to 0 |
| Llegada.LlegadaScreen.RequestDelete | screens/LLegadaScreen.js:77-81 | records the first entry with the id (or none) and opens the confirmation; list and store untouched |
| Llegada.LlegadaScreen.CancelDelete | screens/LLegadaScreen.js:145 | only hides the confirmation |
| Llegada.LlegadaScreen.ConfirmDelete | screens/LLegadaScreen.js:83-94 | with no target nothing changes; otherwise list and store become `RemoveId` of the target's id and the confirmation hides |
| Inscripciones.SexoName | screens/InscripcionesScreen.js:175-206 | every radio button passes one of "Masculino", "Femenino", "Otro" |
| Inscripciones.KeepDigits | screens/InscripcionesScreen.js:95 | only digits, in order, each digit as often as in the input |
| Inscripciones.SanitizeEdad | screens/InscripcionesScreen.js:95 | exactly the digits the user typed, in order (KeepDigits of the input); a digit string is kept as it is |
| Inscripciones.SanitizeCedula | screens/InscripcionesScreen.js:107 | only digits, at most ten: the first ten digits of the input |
| Inscripciones.SanitizeCedulaIdempotent | screens/InscripcionesScreen.js:107 | sanitising twice equals sanitising once |
| Inscripciones.SanitizeEdadIdempotent | screens/InscripcionesScreen.js:95 | sanitising twice equals sanitising once |
| Inscripciones.NewParticipant | screens/InscripcionesScreen.js:46 | the new record carries the form's name, cédula and gender, the age as `parseInt` reads it, an id that reads back as the clock reading, an empty `tiempo` and no times |
| Inscripciones.NewParticipantRegistered | screens/InscripcionesScreen.js:45 | an accepted form yields a record with an id, a name, a ten-digit cédula, a valid gender, empty `tiempo`, no times, and the typed age unless it had a leading zero |
| Decimal.CanonicalDigits | screens/InscripcionesScreen.js:45 | `parseInt` then `toString` returns a digit string without leading zero unchanged |
| Decimal.PositiveLeadingDigit | screens/InscripcionesScreen.js:45 | a digit string with a non-zero lead digit has a positive value |
| Inscripciones.CheckForm | screens/InscripcionesScreen.js:25-39 | incomplete exactly when a field is empty; accepted exactly when all are filled and the cédula has ten characters |
| Inscripciones.AcceptedRegistered | screens/InscripcionesScreen.js:24-46 | a form the screen accepts yields a well-formed record |
| Inscripciones.InscripcionesScreen.constructor | screens/InscripcionesScreen.js:11-21 | empty form, no flags, no dialogs |
| Inscripciones.InscripcionesScreen.ChangeNombre | screens/InscripcionesScreen.js:84-87 | the name is the typed text and its flag clears |
| Inscripciones.InscripcionesScreen.ChangeEdad | screens/InscripcionesScreen.js:94-97 | the age is the sanitised text and its flag clears |
| Inscripciones.InscripcionesScreen.ChangeCedula | screens/InscripcionesScreen.js:106-109 | the cédula is the sanitised text and its flag clears |
| Inscripciones.InscripcionesScreen.ChooseSexo | screens/InscripcionesScreen.js:117-123 | the gender is the chosen button's name and its flag clears |
| Inscripciones.InscripcionesScreen.CloseModal | screens/InscripcionesScreen.js:67-70 | both dialogs close |
| Inscripciones.InscripcionesScreen.Inscribir | screens/InscripcionesScreen.js:24-65 | rejections show their message, set the flags as the checks say and leave store and fields alone; acceptance appends exactly the new record at the end and clears fields and flags |
| Inscripciones.InscripcionesScreen.Enroll | screens/InscripcionesScreen.js:41-58 | appends the new record to the store, then clears the fields and the flags |
| Resultados.Finished | screens/ResultadosScreen.js:17-18 | kept exactly the entries whose two times are not `null`, with multiplicities and in order |
| Resultados.InsertPermutes | screens/ResultadosScreen.js:19 | one insertion step adds the entry and loses nothing |
| Resultados.InsertAscending | screens/ResultadosScreen.js:19 | inserting into a list sorted by arrival keeps it sorted |
| Resultados.SortByArrival | screens/ResultadosScreen.js:19 | the sort is a permutation and non-decreasing by arrival |
| Resultados.InsertStable | screens/ResultadosScreen.js:19 | an inserted entry lands in front of the entries with its arrival time |
| Resultados.SortStable | screens/ResultadosScreen.js:19 | entries with the same arrival time keep their input order |
| Resultados.FilterAscending | screens/ResultadosScreen.js:90 | filtering a sorted list keeps it sorted |
| Resultados.FilterInsert | screens/ResultadosScreen.js:89-91 | filtering commutes with one insertion step |
| Resultados.FilterCommutesWithSort | screens/ResultadosScreen.js:17-19 | filtering after the sort equals sorting after the filter |
| Resultados.CargarResultados | screens/ResultadosScreen.js:17-21 | contains exactly the entries without `null` times, as a permutation of them, ordered by arrival |
| Resultados.CargarResultadosStable | screens/ResultadosScreen.js:19 | ties keep the stored order |
| Resultados.FilteredResultados | screens/ResultadosScreen.js:89-91 | no gender: the list itself; a gender: its entries of that gender, in order, still sorted |
| Resultados.GenderFilterAfterSort | screens/ResultadosScreen.js:89-91 | narrowing by gender after sorting equals sorting the narrowed list |
| Resultados.ResultadoIntervalo | screens/ResultadosScreen.js:31-40 | arrival minus departure; positive intervals read back unchanged, others show as "" |
| Intervals.ComposeExtends | screens/ResultadosScreen.js:50-62 | the accumulator both formatters build starts with what was already written, and adds nothing exactly when both parts are non-positive |
| Intervals.FormatResultados | screens/ResultadosScreen.js:46-63 | empty exactly for non-positive input |
| Intervals.ReadFormatResultados | screens/ResultadosScreen.js:46-63 | the rendering of a positive interval reads back as that interval, with singular units exactly for 1 |
| Intervals.ReadHoursAndMinutes | screens/ResultadosScreen.js:51-60 | "H hora(s) M minuto(s)" reads back as 60 * H + M |
| Intervals.ReadHoursOnly | screens/ResultadosScreen.js:51-53 | the hour part alone, "H hora(s)", reads back as 60 * H |
| Intervals.ReadMinutesOnly | screens/ResultadosScreen.js:55-60 | the minute part alone, "M minuto(s)" with M under 60, reads back as M |
| Intervals.ReadIntervalExact | screens/ResultadosScreen.js:46-63 | a text that reads as n minutes is exactly the results formatter's rendering of n, so the reader accepts canonical numbers (no leading zero) and correct units only |
| Intervals.FormatResultadosInjective | screens/ResultadosScreen.js:46-63 | two positive intervals with the same text are equal |
| Intervals.FormatConsultas | screens/ConsultasScreen.js:55-74 | empty exactly for a zero interval |
| Intervals.ConsultasVersusResultados | screens/ConsultasScreen.js:55-74 | positive: same text as the results formatter; negative: its magnitude's text behind one blank, or two when under an hour |
| Intervals.NegativeBehindBlanks | screens/ConsultasScreen.js:59-71 | the negative case of the relation above |
| Intervals.BlankPrefix | screens/ConsultasScreen.js:59-71 | a leading blank stays in front; with no hour part the separator test adds a second |
| Intervals.FormatResultadosExamples | screens/ResultadosScreen.js:46-63 | 60, 120, 1 and -30 render as "1 hora", "2 horas", "1 minuto", "" |
| Intervals.FormatResultadosMixedExample | screens/ResultadosScreen.js:46-63 | 555 renders as "9 horas 15 minutos" |
| Intervals.FormatResultadosSmallExamples | screens/ResultadosScreen.js:46-63 | 61 and 5 render as "1 hora 1 minuto" and "5 minutos" |
| Intervals.FormatConsultasExamples | screens/ConsultasScreen.js:46-75 | 555, -61 and -5 render as "9 horas 15 minutos", " 1 hora 1 minuto", "  5 minutos" |
| Consultas.IsNumeric | screens/ConsultasScreen.js:31 | `/^\d+$/`, built as the pattern is (a digit, then the end or another match), holds of exactly the non-empty digit strings |
| Consultas.Search | screens/ConsultasScreen.js:28-44 | refused exactly when the text is not ten digits; not found exactly when valid and no entry has that cédula; otherwise the first entry with it |
| Consultas.ConsultasScreen.SearchEnabled | screens/ConsultasScreen.js:115 | a guarded text that enables the button (ten characters) is a well-formed identity number; while the button is disabled the text is not one |
| Consultas.EnabledSearchIsValid | screens/ConsultasScreen.js:103-115 | on a screen whose field guard holds and whose button is enabled, the query is never refused |
| Consultas.SearchFindsFirst | screens/ConsultasScreen.js:33 | the first entry carrying the number is the one found, whatever follows |
| Consultas.TiempoConsulta | screens/ConsultasScreen.js:46-75 | "" while a time is null or absent; otherwise departure minus arrival, "" exactly when zero, read back when positive, behind one or two blanks when negative |
| Consultas.ConsultasScreen.constructor | screens/ConsultasScreen.js:8-11 | empty list, no result, empty text and error |
| Consultas.ConsultasScreen.Load | screens/ConsultasScreen.js:13-26 | the list is the stored list |
| Consultas.ConsultasScreen.OnChangeText | screens/ConsultasScreen.js:103-107 | digit strings and the empty string replace the text; anything else leaves it |
| Consultas.ConsultasScreen.HandleSearch | screens/ConsultasScreen.js:28-44 | found: shows the match with no error; not found or refused: clears the match and shows its own message |

## Left out

- Reading and writing the key-value store, JSON parsing and the fallback to an empty list.
  Each screen's `store` field is the stored list. A failed read or write is not modelled.
  Loading, registration and deletion catch and log such a failure.
- Llegada.LlegadaScreen.SaveTimes: models a save whose write succeeds. The save handler has
  no `catch`: if the store write fails, the list on screen has already been replaced, and
  the handler stops with the dialog still open, the selection still set and the store
  unchanged.
- `moment(x, 'Hmm')` and `.diff(..., 'minutes')`: a library that is not part of this model. The
  minute difference is the parameter `diff`, and nothing is claimed about how it reads a
  packed value.
- `generateUniqueId`: the clock reading is a parameter (`now`, `stamps`), so equal
  readings give equal ids in the model too (`Llegada.SameStampSameId`). The load `map`
  normally runs within one millisecond, so all entries stored without an id usually get
  the same id, and recording times or deleting then acts on all of them together
  (`Llegada.RecordTimes`, `Llegada.RemoveId`).
- Resultados.CargarResultados: entries that pass the `null` filter with an absent arrival
  time are excluded by its precondition. The comparator then returns NaN, and the order an
  engine produces for them is unspecified. Nothing in the app writes `null`, so the filter
  keeps every entry, and the precondition holds only once every stored participant has an
  arrival time.
- Ids: a stored record with any falsy id (absent, `null`, 0, "") is represented with the
  empty string.
- The `edad` field's `maxLength={3}` and the other inputs' length limits are native
  properties of the text input. The lookup field's ten-character limit is the precondition
  of `OnChangeText`.
- `togglePicker` / `isPickerVisible` and the second gender picker that also hides itself: a
  display toggle only. The selection it makes is `ChooseSexo`.
- The success dialog (`modalVisible` on the registration screen) is never opened, because
  its call is commented out. It is a field that only `CloseModal` changes.
- The results screen's gender buttons only set the selection; it is the parameter of
  `FilteredResultados`. The results list is computed as a function, with no class.
- Rendering, styles, list keys, icons and logging. Races between screens and saves that are
  not awaited.
- The picker values are strings in the source (`i.toString()`); the model keeps the number
  each string writes, which `toString` and `padStart` treat identically.
