/** The registration screen (screens/InscripcionesScreen.js): four form fields with their
    input sanitisers and error flags, and the handler that validates the form and appends
    a new participant to the stored list. */
module Inscripciones {
  import opened Decimal
  import opened Seqs
  import opened Roster
  import opened Wrappers

  /** The three choices of the gender picker. */
  datatype Sexo = Masculino | Femenino | Otro

  /** The string each radio button passes to `onValueChange`. */
  function SexoName(s: Sexo): (name: string)
    ensures IsSexoName(name)
  {
    match s
    case Masculino => "Masculino"
    case Femenino => "Femenino"
    case Otro => "Otro"
  }

  predicate IsSexoName(name: string) {
    name == "Masculino" || name == "Femenino" || name == "Otro"
  }

  const IncompleteMessage := "Completa todos los campos."
  const ShortCedulaMessage := "Cédula incompleta. Por favor, ingresa 10 dígitos."

  /** `text.replace(/[^0-9]/g, '')`: the digits of `text`, in order. */
  function KeepDigits(text: string): (r: string)
    ensures AllDigits(r)
    ensures IsSubseq(r, text)
    ensures forall c :: multiset(r)[c] == if IsDigit(c) then multiset(text)[c] else 0
  {
    FilterIsSubseq(text, IsDigit);
    Filter(text, IsDigit)
  }

  /** The age field's `onChangeText` sanitiser: the digits the user typed, in order. */
  function SanitizeEdad(text: string): (r: string)
    ensures AllDigits(r)
    ensures r == KeepDigits(text)
    ensures AllDigits(text) ==> r == text
  {
    if AllDigits(text) then FilterKeepsAll(text, IsDigit); KeepDigits(text) else KeepDigits(text)
  }

  /** The identity-number field's sanitiser: the digits, then `substring(0, 10)`. */
  function SanitizeCedula(text: string): (r: string)
    ensures AllDigits(r) && |r| <= 10
    ensures r == KeepDigits(text)[..if |KeepDigits(text)| < 10 then |KeepDigits(text)| else 10]
  {
    var digits := KeepDigits(text);
    if |digits| <= 10 then digits else digits[..10]
  }

  /** Sanitising a sanitised identity number changes nothing. */
  lemma SanitizeCedulaIdempotent(text: string)
    ensures SanitizeCedula(SanitizeCedula(text)) == SanitizeCedula(text)
  {
    var once := SanitizeCedula(text);
    FilterKeepsAll(once, IsDigit);
  }

  /** Sanitising a sanitised age changes nothing. */
  lemma SanitizeEdadIdempotent(text: string)
    ensures SanitizeEdad(SanitizeEdad(text)) == SanitizeEdad(text)
  {
  }

  /** The record the handler appends. `now` is the clock reading behind `generateUniqueId`. */
  function NewParticipant(now: nat, nombre: string, edad: string, cedula: string, sexo: string): (p: Participant)
    requires AllDigits(edad)
    ensures p.id != "" && AllDigits(p.id) && ParseDecimal(p.id) == now
    ensures p.nombre == nombre && p.cedula == cedula && p.sexo == sexo
    ensures p.edad == ParseDecimal(edad)
    ensures p.tiempo == "" && p.arrival == Missing && p.departure == Missing && p.decoded == None
  {
    ParseNatToString(now);
    Participant(NatToString(now), nombre, ParseDecimal(edad), cedula, sexo, "", Missing, Missing, None)
  }

  /** What a record made by registration always satisfies. */
  predicate Registered(p: Participant) {
    p.id != "" && p.nombre != "" && IsCedula(p.cedula) && IsSexoName(p.sexo) &&
    p.tiempo == "" && p.arrival == Missing && p.departure == Missing
  }

  /** A form that passed both checks yields a well-formed record carrying the typed age. */
  lemma NewParticipantRegistered(now: nat, nombre: string, edad: string, cedula: string, sexo: string)
    requires AllDigits(edad) && AllDigits(cedula)
    requires nombre != "" && edad != "" && |cedula| == 10 && IsSexoName(sexo)
    ensures Registered(NewParticipant(now, nombre, edad, cedula, sexo))
    ensures NatToString(NewParticipant(now, nombre, edad, cedula, sexo).edad) == edad || edad[0] == '0'
  {
    var p := NewParticipant(now, nombre, edad, cedula, sexo);
    if edad[0] != '0' {
      ParseNatToString(p.edad);
      CanonicalDigits(edad);
    }
  }

  /** How `handleInscribir` judges the form. */
  datatype Verdict = Incomplete | ShortCedula | Accepted

  /** The two checks in order: any empty field, then an identity number of the wrong
      length. */
  function CheckForm(nombre: string, edad: string, cedula: string, sexo: string): (v: Verdict)
    ensures v == Incomplete <==> nombre == "" || edad == "" || cedula == "" || sexo == ""
    ensures v == Accepted <==> nombre != "" && edad != "" && sexo != "" && |cedula| == 10
  {
    if nombre == "" || edad == "" || cedula == "" || sexo == "" then Incomplete
    else if |cedula| != 10 then ShortCedula
    else Accepted
  }

  /** An accepted form held by the screen yields a well-formed record. */
  lemma AcceptedRegistered(now: nat, nombre: string, edad: string, cedula: string, sexo: string)
    requires AllDigits(edad) && AllDigits(cedula) && (sexo == "" || IsSexoName(sexo))
    requires CheckForm(nombre, edad, cedula, sexo) == Accepted
    ensures Registered(NewParticipant(now, nombre, edad, cedula, sexo))
  {
    NewParticipantRegistered(now, nombre, edad, cedula, sexo);
  }

  /** The registration screen's component state. `store` is the 'participantes' entry of
      the key-value store. */
  class InscripcionesScreen {
    var store: seq<Participant>
    var nombre: string
    var edad: string
    var cedula: string
    var selectedSexo: string
    var modalVisible: bool
    var errorModalVisible: bool
    var errorMessage: string
    var cedulaError: bool
    var edadError: bool
    var nombreError: bool
    var sexoError: bool

    /** What the sanitisers and the picker keep true of the form. */
    ghost predicate Valid()
      reads this
    {
      AllDigits(edad) && AllDigits(cedula) && |cedula| <= 10 &&
      (selectedSexo == "" || IsSexoName(selectedSexo))
    }

    constructor (stored: seq<Participant>)
      ensures Valid() && store == stored
      ensures nombre == "" && edad == "" && cedula == "" && selectedSexo == ""
      ensures !modalVisible && !errorModalVisible && errorMessage == ""
      ensures !cedulaError && !edadError && !nombreError && !sexoError
    {
      store := stored;
      nombre, edad, cedula, selectedSexo := "", "", "", "";
      modalVisible, errorModalVisible, errorMessage := false, false, "";
      cedulaError, edadError, nombreError, sexoError := false, false, false, false;
    }

    method ChangeNombre(text: string)
      requires Valid()
      modifies this`nombre, this`nombreError
      ensures Valid() && nombre == text && !nombreError
    {
      nombre := text;
      nombreError := false;
    }

    method ChangeEdad(text: string)
      requires Valid()
      modifies this`edad, this`edadError
      ensures Valid() && edad == SanitizeEdad(text) && !edadError
    {
      edad := SanitizeEdad(text);
      edadError := false;
    }

    method ChangeCedula(text: string)
      requires Valid()
      modifies this`cedula, this`cedulaError
      ensures Valid() && cedula == SanitizeCedula(text) && !cedulaError
    {
      cedula := SanitizeCedula(text);
      cedulaError := false;
    }

    /** `GenderPicker`'s `onValueChange`. */
    method ChooseSexo(s: Sexo)
      requires Valid()
      modifies this`selectedSexo, this`sexoError
      ensures Valid() && selectedSexo == SexoName(s) && !sexoError
    {
      selectedSexo := SexoName(s);
      sexoError := false;
    }

    /** `closeModal`. */
    method CloseModal()
      modifies this`modalVisible, this`errorModalVisible
      ensures !modalVisible && !errorModalVisible
    {
      modalVisible := false;
      errorModalVisible := false;
    }

    /** `handleInscribir`. An empty field: the generic message, and each flag set by its
        own test (the identity flag by its length). All filled but the identity number
        not ten long: the length message and its flag. Otherwise the new record goes at
        the end of the stored list and the form is cleared. Rejections leave the store
        and the fields as they were. */
    method Inscribir(now: nat)
      requires Valid()
      modifies this`store, this`nombre, this`edad, this`cedula, this`selectedSexo
      modifies this`errorModalVisible, this`errorMessage
      modifies this`cedulaError, this`edadError, this`nombreError, this`sexoError
      ensures Valid()
      ensures old(CheckForm(nombre, edad, cedula, selectedSexo)) != Accepted ==>
        store == old(store) && nombre == old(nombre) && edad == old(edad) &&
        cedula == old(cedula) && selectedSexo == old(selectedSexo) && errorModalVisible
      ensures old(CheckForm(nombre, edad, cedula, selectedSexo)) == Incomplete ==>
        errorMessage == IncompleteMessage &&
        nombreError == old(nombre == "") && edadError == old(edad == "") &&
        cedulaError == old(|cedula| != 10) && sexoError == old(selectedSexo == "")
      ensures old(CheckForm(nombre, edad, cedula, selectedSexo)) == ShortCedula ==>
        errorMessage == ShortCedulaMessage && cedulaError &&
        nombreError == old(nombreError) && edadError == old(edadError) && sexoError == old(sexoError)
      ensures old(CheckForm(nombre, edad, cedula, selectedSexo)) == Accepted ==>
        store == old(store) + [NewParticipant(now, old(nombre), old(edad), old(cedula), old(selectedSexo))] &&
        nombre == "" && edad == "" && cedula == "" && selectedSexo == "" &&
        !cedulaError && !edadError && !nombreError && !sexoError &&
        errorMessage == old(errorMessage) && errorModalVisible == old(errorModalVisible)
    {
      if nombre == "" || edad == "" || cedula == "" || selectedSexo == "" {
        errorMessage := IncompleteMessage;
        errorModalVisible := true;
        nombreError := nombre == "";
        edadError := edad == "";
        cedulaError := |cedula| != 10;
        sexoError := selectedSexo == "";
        return;
      }
      if |cedula| != 10 {
        errorMessage := ShortCedulaMessage;
        errorModalVisible := true;
        cedulaError := true;
        return;
      }
      Enroll(now);
    }

    /** The `try` block of `handleInscribir`: append the new record to the stored list,
        then clear the form and its flags. */
    method Enroll(now: nat)
      requires AllDigits(edad)
      modifies this`store, this`nombre, this`edad, this`cedula, this`selectedSexo
      modifies this`cedulaError, this`edadError, this`nombreError, this`sexoError
      ensures store == old(store) + [NewParticipant(now, old(nombre), old(edad), old(cedula), old(selectedSexo))]
      ensures nombre == "" && edad == "" && cedula == "" && selectedSexo == ""
      ensures !cedulaError && !edadError && !nombreError && !sexoError
    {
      store := store + [NewParticipant(now, nombre, edad, cedula, selectedSexo)];
      nombre, edad, cedula, selectedSexo := "", "", "", "";
      cedulaError, edadError, nombreError, sexoError := false, false, false, false;
    }
  }

}
