/** The contact form's field validators and the whole-form check: each
    validator returns `None` for an acceptable value and a Spanish message
    otherwise; the whole-form check runs a fixed chain per field. */
module FormValidation {
  import opened Wrappers
  import opened JsString

  const RequiredMessage := "Este campo es obligatorio"
  const EmailMessage := "Por favor ingresa un correo electronico valido"
  const PhoneMessage := "Por favor ingresa un numero de telefono valido"

  /** The template of `validateMinLength`: for a non-negative bound the
      number appears as its decimal numeral. */
  function MinLengthMessage(fieldName: string, min: int): (r: string)
    ensures min >= 0 ==> r == MinLengthPrefix(fieldName) + NatToString(min) + " caracteres"
  {
    "El campo " + fieldName + " debe tener al menos " + IntToString(min) + " caracteres"
  }

  /** The template of `validateMaxLength`. */
  function MaxLengthMessage(fieldName: string, max: int): (r: string)
    ensures max >= 0 ==> r == MaxLengthPrefix(fieldName) + NatToString(max) + " caracteres"
  {
    "El campo " + fieldName + " no puede exceder " + IntToString(max) + " caracteres"
  }

  function MinLengthPrefix(fieldName: string): string {
    "El campo " + fieldName + " debe tener al menos "
  }

  function MaxLengthPrefix(fieldName: string): string {
    "El campo " + fieldName + " no puede exceder "
  }

  // ---------------------------------------------------------------------
  // Single-field validators
  // ---------------------------------------------------------------------

  /** `validateRequired`: rejects the empty string and every string that
      trims to empty. The field name is not used. */
  function ValidateRequired(value: string, fieldName: string): (r: Option<string>)
    ensures r.Some? ==> r.value == RequiredMessage
  {
    if value == "" || Trim(value) == "" then Some(RequiredMessage) else None
  }

  lemma ValidateRequiredIff(value: string, fieldName: string)
    ensures ValidateRequired(value, fieldName).Some? <==> AllSpace(value)
  {
  }

  /** A run of characters matched by `[^\s@]+` when non-empty. */
  predicate NoSpaceNoAt(t: string) {
    forall k :: 0 <= k < |t| ==> !IsSpace(t[k]) && t[k] != '@'
  }

  /** The strings matched by `^[^\s@]+@[^\s@]+\.[^\s@]+$`, stated as a split
      L "@" A "." B with L, A and B non-empty runs of characters that are
      neither white space nor '@'. */
  ghost predicate EmailShape(s: string) {
    exists i, j ::
      0 < i && i + 1 < j && j + 1 < |s| && s[i] == '@' && s[j] == '.' &&
      NoSpaceNoAt(s[..i]) && NoSpaceNoAt(s[i + 1..j]) && NoSpaceNoAt(s[j + 1..])
  }

  /** The index of the first occurrence of `c` in `s`, if any. */
  function FirstIndexOf(s: string, c: char): (r: Option<nat>)
    ensures r.Some? ==> r.value < |s| && s[r.value] == c
    ensures r.Some? ==> forall k :: 0 <= k < r.value ==> s[k] != c
    ensures r.None? ==> forall k :: 0 <= k < |s| ==> s[k] != c
  {
    IndexFrom(s, c, 0)
  }

  /** The first position at or after `n` holding `c`. */
  function IndexFrom(s: string, c: char, n: nat): (r: Option<nat>)
    ensures r.Some? ==> n <= r.value < |s| && s[r.value] == c
    ensures r.Some? ==> forall k :: n <= k < r.value ==> s[k] != c
    ensures r.None? ==> forall k :: n <= k < |s| ==> s[k] != c
    decreases |s| - n
  {
    if n >= |s| then None
    else if s[n] == c then Some(n)
    else IndexFrom(s, c, n + 1)
  }

  predicate NoSpace(s: string) {
    forall k :: 0 <= k < |s| ==> !IsSpace(s[k])
  }

  /** A '.' with at least one character on each side of it. */
  predicate HasInnerDot(r: string) {
    |r| >= 3 && '.' in r[1..|r| - 1]
  }

  /** The email pattern test as a scan: a non-initial first '@', no white
      space anywhere, no second '@', and an inner '.' after the '@'. */
  predicate EmailPatternTest(s: string)
    ensures EmailPatternTest(s) ==> |s| >= 5 && NoSpace(s) && s[0] != '@' && s[|s| - 1] != '@'
  {
    match FirstIndexOf(s, '@')
    case None => false
    case Some(i) =>
      (0 < i && NoSpace(s) && HasInnerDot(s[i + 1..]) && forall k :: i < k < |s| ==> s[k] != '@')
  }

  /** Every string the scan accepts has the shape L@A.B. */
  lemma EmailPatternTestSound(s: string)
    requires EmailPatternTest(s)
    ensures EmailShape(s)
  {
    var i := FirstIndexOf(s, '@').value;
    var r := s[i + 1..];
    var m :| 0 <= m < |r| - 2 && r[1..|r| - 1][m] == '.';
    var j := i + 2 + m;
    assert s[j] == '.';
    assert NoSpaceNoAt(s[..i]);
    assert NoSpaceNoAt(s[i + 1..j]);
    assert NoSpaceNoAt(s[j + 1..]);
  }

  /** Every string of the shape L@A.B is accepted by the scan. */
  lemma EmailPatternTestComplete(s: string, i: nat, j: nat)
    requires 0 < i && i + 1 < j && j + 1 < |s| && s[i] == '@' && s[j] == '.'
    requires NoSpaceNoAt(s[..i]) && NoSpaceNoAt(s[i + 1..j]) && NoSpaceNoAt(s[j + 1..])
    ensures EmailPatternTest(s)
  {
    forall k | 0 <= k < |s| ensures !IsSpace(s[k]) && (k != i ==> s[k] != '@') {
      if k < i {
        assert s[k] == s[..i][k];
      } else if i < k < j {
        assert s[k] == s[i + 1..j][k - i - 1];
      } else if j < k {
        assert s[k] == s[j + 1..][k - j - 1];
      }
    }
    assert FirstIndexOf(s, '@') == Some(i);
    var r := s[i + 1..];
    assert r[1..|r| - 1][j - i - 2] == '.';
  }

  /** The scan accepts exactly the strings of the shape L@A.B. */
  lemma EmailPatternTestIff(s: string)
    ensures EmailPatternTest(s) <==> EmailShape(s)
  {
    if EmailPatternTest(s) {
      EmailPatternTestSound(s);
    }
    if EmailShape(s) {
      var i, j :| 0 < i && i + 1 < j && j + 1 < |s| && s[i] == '@' && s[j] == '.' &&
        NoSpaceNoAt(s[..i]) && NoSpaceNoAt(s[i + 1..j]) && NoSpaceNoAt(s[j + 1..]);
      EmailPatternTestComplete(s, i, j);
    }
  }

  /** `validateEmail`: the blank check, then the pattern; both failures share
      one message. */
  function ValidateEmail(value: string): (r: Option<string>)
    ensures r.Some? ==> r.value == EmailMessage
  {
    if value == "" || Trim(value) == "" then Some(EmailMessage)
    else if !EmailPatternTest(value) then Some(EmailMessage)
    else None
  }

  /** An address is accepted exactly when it has the shape L@A.B; the blank
      check rejects nothing the pattern would accept. */
  lemma ValidateEmailIff(value: string)
    ensures ValidateEmail(value).None? <==> EmailShape(value)
  {
    if value == "" || Trim(value) == "" {
      BlankIsNoEmail(value);
    } else {
      EmailPatternTestIff(value);
    }
  }

  lemma BlankIsNoEmail(value: string)
    requires AllSpace(value)
    ensures !EmailShape(value)
  {
  }

  /** One character of the class `[\d\s\-()+ ]`; `\d` is ASCII 0-9. */
  predicate IsPhoneChar(c: char) {
    IsDigit(c) || IsSpace(c) || c == '-' || c == '(' || c == ')' || c == '+' || c == ' '
  }

  /** `^[\d\s\-()+ ]+$`. */
  predicate PhonePatternTest(s: string)
    ensures s != [] && AllSpace(s) ==> PhonePatternTest(s)
    ensures PhonePatternTest(s) ==> forall k :: 0 <= k < |s| ==> !('a' <= s[k] <= 'z') && !('A' <= s[k] <= 'Z') && s[k] != '@'
  {
    |s| > 0 && forall k :: 0 <= k < |s| ==> IsPhoneChar(s[k])
  }

  /** `validatePhone`: the blank check, then the pattern; both failures share
      one message. Accepted are exactly the strings drawn from the phone
      alphabet that hold at least one character other than white space. */
  function ValidatePhone(value: string): (r: Option<string>)
    ensures r.Some? ==> r.value == PhoneMessage
  {
    if value == "" || Trim(value) == "" then Some(PhoneMessage)
    else if !PhonePatternTest(value) then Some(PhoneMessage)
    else None
  }

  lemma ValidatePhoneIff(value: string)
    ensures ValidatePhone(value).None? <==>
      (forall k :: 0 <= k < |value| ==> IsPhoneChar(value[k])) &&
      (exists k :: 0 <= k < |value| && !IsSpace(value[k]))
  {
  }

  /** A value of white space only matches the phone pattern but is still
      rejected, by the blank check that runs first. */
  lemma BlankPhoneRejected(value: string)
    requires value != [] && AllSpace(value)
    ensures PhonePatternTest(value)
    ensures ValidatePhone(value) == Some(PhoneMessage)
  {
    ValidatePhoneIff(value);
    assert forall k :: 0 <= k < |value| ==> IsPhoneChar(value[k]);
  }

  /** `validateMinLength`: `length` counts UTF-16 code units. */
  function ValidateMinLength(value: string, min: int, fieldName: string): (r: Option<string>)
    ensures r.None? <==> Utf16Length(value) >= min
    ensures r.Some? ==> r.value == MinLengthMessage(fieldName, min)
  {
    if Utf16Length(value) < min then Some(MinLengthMessage(fieldName, min)) else None
  }

  /** `validateMaxLength`: `length` counts UTF-16 code units. */
  function ValidateMaxLength(value: string, max: int, fieldName: string): (r: Option<string>)
    ensures r.None? <==> Utf16Length(value) <= max
    ensures r.Some? ==> r.value == MaxLengthMessage(fieldName, max)
  {
    if Utf16Length(value) > max then Some(MaxLengthMessage(fieldName, max)) else None
  }

  /** The numeral between a known prefix and " caracteres" determines the
      bound. */
  lemma NumeralDeterminesBound(prefix: string, a: nat, b: nat)
    requires prefix + NatToString(a) + " caracteres" == prefix + NatToString(b) + " caracteres"
    ensures a == b
  {
    var x, y := prefix + NatToString(a) + " caracteres", prefix + NatToString(b) + " caracteres";
    assert x[|prefix|..|x| - 11] == NatToString(a);
    assert y[|prefix|..|y| - 11] == NatToString(b);
    NatToStringRoundTrip(a);
    NatToStringRoundTrip(b);
  }

  /** A length message names its bound unambiguously: two messages for the
      same field are equal only when their bounds are. */
  lemma LengthMessagesDetermineBound(fieldName: string, a: nat, b: nat)
    ensures MinLengthMessage(fieldName, a) == MinLengthMessage(fieldName, b) <==> a == b
    ensures MaxLengthMessage(fieldName, a) == MaxLengthMessage(fieldName, b) <==> a == b
  {
    if MinLengthMessage(fieldName, a) == MinLengthMessage(fieldName, b) {
      NumeralDeterminesBound(MinLengthPrefix(fieldName), a, b);
    }
    if MaxLengthMessage(fieldName, a) == MaxLengthMessage(fieldName, b) {
      NumeralDeterminesBound(MaxLengthPrefix(fieldName), a, b);
    }
  }

  // ---------------------------------------------------------------------
  // The whole form
  // ---------------------------------------------------------------------

  /** The seven fields of `ContactFormData`, in the order the whole-form check
      visits them. */
  datatype Field = Nombre | Telefono | Correo | Empresa | Servicio | Presupuesto | Mensaje

  const AllFields: seq<Field> := [Nombre, Telefono, Correo, Empresa, Servicio, Presupuesto, Mensaje]

  /** The position of a field in the check order. */
  function Rank(f: Field): (n: nat)
    ensures n < |AllFields| && AllFields[n] == f
  {
    match f
    case Nombre => 0
    case Telefono => 1
    case Correo => 2
    case Empresa => 3
    case Servicio => 4
    case Presupuesto => 5
    case Mensaje => 6
  }

  /** The property name the source uses for a field. */
  function FieldKey(f: Field): string {
    match f
    case Nombre => "nombre"
    case Telefono => "telefono"
    case Correo => "correo"
    case Empresa => "empresa"
    case Servicio => "servicio"
    case Presupuesto => "presupuesto"
    case Mensaje => "mensaje"
  }

  /** Distinct fields have distinct property names, so the source's error
      record keyed by name and a map keyed by `Field` hold the same entries. */
  lemma FieldKeyInjective(f: Field, g: Field)
    ensures FieldKey(f) == FieldKey(g) <==> f == g
  {
    if f != g {
      assert FieldKey(f)[..2] != FieldKey(g)[..2] || FieldKey(f)[2] != FieldKey(g)[2] || |FieldKey(f)| != |FieldKey(g)|;
    }
  }

  datatype ContactFormData = ContactFormData(
    nombre: string, telefono: string, correo: string, empresa: string,
    servicio: string, presupuesto: string, mensaje: string)

  datatype FormFieldError = FormFieldError(field: Field, message: string)

  datatype ValidationResult = ValidationResult(isValid: bool, errors: seq<FormFieldError>)

  /** `formData[name]`. */
  function Get(d: ContactFormData, f: Field): string {
    match f
    case Nombre => d.nombre
    case Telefono => d.telefono
    case Correo => d.correo
    case Empresa => d.empresa
    case Servicio => d.servicio
    case Presupuesto => d.presupuesto
    case Mensaje => d.mensaje
  }

  /** `{ ...d, [name]: value }`: only field `f` changes. */
  function With(d: ContactFormData, f: Field, value: string): (r: ContactFormData)
    ensures Get(r, f) == value
    ensures forall g :: g != f ==> Get(r, g) == Get(d, g)
  {
    match f
    case Nombre => d.(nombre := value)
    case Telefono => d.(telefono := value)
    case Correo => d.(correo := value)
    case Empresa => d.(empresa := value)
    case Servicio => d.(servicio := value)
    case Presupuesto => d.(presupuesto := value)
    case Mensaje => d.(mensaje := value)
  }

  /** The errors one validator result contributes for a field. */
  function ErrorsOf(f: Field, check: Option<string>): (r: seq<FormFieldError>)
    ensures |r| <= 1 && (r == [] <==> check.None?)
    ensures forall e :: e in r ==> e.field == f && check == Some(e.message)
  {
    match check
    case None => []
    case Some(m) => [FormFieldError(f, m)]
  }

  /** The chain for nombre, empresa and mensaje: the required check, and only
      when it passes, the minimum and then the maximum length check. */
  function BoundedErrors(f: Field, value: string, displayName: string, min: int, max: int): (r: seq<FormFieldError>)
    ensures forall e :: e in r ==> e.field == f && e.message != ""
    ensures r == [] <==> BoundedOk(value, min, max)
    ensures min < max ==> |r| <= 1
  {
    ValidateRequiredIff(value, displayName);
    match ValidateRequired(value, displayName)
    case Some(m) => [FormFieldError(f, m)]
    case None =>
      ErrorsOf(f, ValidateMinLength(value, min, displayName)) +
      ErrorsOf(f, ValidateMaxLength(value, max, displayName))
  }

  /** `validateContactForm`. Every pushed message is non-empty, so the
      source's truthiness tests on the validators' results are exactly the
      `Some` tests here. */
  function ValidateContactForm(d: ContactFormData): (r: ValidationResult)
    ensures r.isValid <==> r.errors == []
    ensures |r.errors| <= |AllFields|
    ensures Messages(r.errors)
  {
    var nombre := BoundedErrors(Nombre, d.nombre, "Nombre", 2, 100);
    var telefono := ErrorsOf(Telefono, ValidatePhone(d.telefono));
    var correo := ErrorsOf(Correo, ValidateEmail(d.correo));
    var empresa := BoundedErrors(Empresa, d.empresa, "Nombre de Empresa", 2, 150);
    var servicio := ErrorsOf(Servicio, ValidateRequired(d.servicio, "Servicio"));
    var presupuesto := ErrorsOf(Presupuesto, ValidateRequired(d.presupuesto, "Presupuesto"));
    var mensaje := BoundedErrors(Mensaje, d.mensaje, "Mensaje", 20, 1000);
    var errors := nombre + telefono + correo + empresa + servicio + presupuesto + mensaje;
    MessagesAppend(nombre, telefono);
    MessagesAppend(nombre + telefono, correo);
    MessagesAppend(nombre + telefono + correo, empresa);
    MessagesAppend(nombre + telefono + correo + empresa, servicio);
    MessagesAppend(nombre + telefono + correo + empresa + servicio, presupuesto);
    MessagesAppend(nombre + telefono + correo + empresa + servicio + presupuesto, mensaje);
    ValidationResult(|errors| == 0, errors)
  }

  /** Every entry carries a non-empty message, as the truthiness tests of
      the source require of a reported error. */
  predicate Messages(errors: seq<FormFieldError>) {
    forall i :: 0 <= i < |errors| ==> errors[i].message != ""
  }

  lemma MessagesAppend(a: seq<FormFieldError>, b: seq<FormFieldError>)
    requires Messages(a)
    requires forall e :: e in b ==> e.message != ""
    ensures Messages(a + b)
  {
    forall i | |a| <= i < |a + b| ensures (a + b)[i].message != "" {
      assert (a + b)[i] == b[i - |a|];
    }
  }

  // ---------------------------------------------------------------------
  // The reference per-field rule, stated without the validators
  // ---------------------------------------------------------------------

  /** The acceptable values of a field whose length is bounded. */
  ghost predicate BoundedOk(value: string, min: int, max: int) {
    !AllSpace(value) && min <= Utf16Length(value) <= max
  }

  /** The one message a field gets, or `None` when its value is acceptable:
      the first failing rule of that field. */
  ghost function FieldError(f: Field, value: string): Option<string> {
    match f
    case Nombre => BoundedError(value, "Nombre", 2, 100)
    case Telefono =>
      if (forall k :: 0 <= k < |value| ==> IsPhoneChar(value[k])) && !AllSpace(value)
      then None else Some(PhoneMessage)
    case Correo => if EmailShape(value) then None else Some(EmailMessage)
    case Empresa => BoundedError(value, "Nombre de Empresa", 2, 150)
    case Servicio => if AllSpace(value) then Some(RequiredMessage) else None
    case Presupuesto => if AllSpace(value) then Some(RequiredMessage) else None
    case Mensaje => BoundedError(value, "Mensaje", 20, 1000)
  }

  ghost function BoundedError(value: string, displayName: string, min: int, max: int): Option<string> {
    if AllSpace(value) then Some(RequiredMessage)
    else if Utf16Length(value) < min then Some(MinLengthMessage(displayName, min))
    else if Utf16Length(value) > max then Some(MaxLengthMessage(displayName, max))
    else None
  }

  lemma BoundedErrorIsOk(value: string, displayName: string, min: int, max: int)
    ensures BoundedError(value, displayName, min, max).None? <==> BoundedOk(value, min, max)
  {
  }

  /** The messages the form can report are never empty. */
  lemma FieldErrorNonEmpty(f: Field, value: string)
    ensures FieldError(f, value).Some? ==> FieldError(f, value).value != ""
  {
  }

  /** The reference error list of `d` when the fields are visited in the
      order of `fields`: one entry for each failing field. */
  ghost function ErrorsFrom(fields: seq<Field>, d: ContactFormData): seq<FormFieldError> {
    if fields == [] then []
    else ErrorsOf(fields[0], FieldError(fields[0], Get(d, fields[0]))) + ErrorsFrom(fields[1..], d)
  }

  lemma ErrorsFromStep(fields: seq<Field>, d: ContactFormData)
    requires fields != []
    ensures ErrorsFrom(fields, d) == ErrorsOf(fields[0], FieldError(fields[0], Get(d, fields[0]))) + ErrorsFrom(fields[1..], d)
  {
  }

  /** The reference error list of a form, spelled out field by field. */
  lemma ErrorsFromAllFields(d: ContactFormData)
    ensures ErrorsFrom(AllFields, d) ==
      ErrorsOf(Nombre, FieldError(Nombre, d.nombre)) + (ErrorsOf(Telefono, FieldError(Telefono, d.telefono)) +
      (ErrorsOf(Correo, FieldError(Correo, d.correo)) + ErrorsFrom(AllFields[3..], d)))
    ensures ErrorsFrom(AllFields[3..], d) ==
      ErrorsOf(Empresa, FieldError(Empresa, d.empresa)) + (ErrorsOf(Servicio, FieldError(Servicio, d.servicio)) +
      (ErrorsOf(Presupuesto, FieldError(Presupuesto, d.presupuesto)) +
      ErrorsOf(Mensaje, FieldError(Mensaje, d.mensaje))))
  {
    var fs := AllFields;
    ErrorsFromStep(fs, d);
    ErrorsFromStep(fs[1..], d);
    ErrorsFromStep(fs[2..], d);
    assert fs[1..][1..] == fs[2..] && fs[2..][1..] == fs[3..];
    ErrorsTailFields(d);
  }

  lemma ErrorsTailFields(d: ContactFormData)
    ensures ErrorsFrom(AllFields[3..], d) ==
      ErrorsOf(Empresa, FieldError(Empresa, d.empresa)) + (ErrorsOf(Servicio, FieldError(Servicio, d.servicio)) +
      (ErrorsOf(Presupuesto, FieldError(Presupuesto, d.presupuesto)) +
      ErrorsOf(Mensaje, FieldError(Mensaje, d.mensaje))))
  {
    var fs := AllFields;
    ErrorsFromStep(fs[3..], d);
    ErrorsFromStep(fs[4..], d);
    ErrorsFromStep(fs[5..], d);
    ErrorsFromStep(fs[6..], d);
    assert fs[3..][1..] == fs[4..] && fs[4..][1..] == fs[5..] && fs[5..][1..] == fs[6..] && fs[6..][1..] == [];
  }

  /** Regrouping the seven segments of the push sequence. */
  lemma Regroup(a: seq<FormFieldError>, b: seq<FormFieldError>, c: seq<FormFieldError>, d: seq<FormFieldError>,
                e: seq<FormFieldError>, f: seq<FormFieldError>, g: seq<FormFieldError>)
    ensures a + b + c + d + e + f + g == a + (b + (c + (d + (e + (f + g)))))
  {
    assert a + b + c + d + e + f + g == a + b + c + d + e + (f + g);
    assert a + b + c + d + e + (f + g) == a + b + c + d + (e + (f + g));
    assert a + b + c + d + (e + (f + g)) == a + b + c + (d + (e + (f + g)));
    assert a + b + c + (d + (e + (f + g))) == a + b + (c + (d + (e + (f + g))));
    assert a + b + (c + (d + (e + (f + g)))) == a + (b + (c + (d + (e + (f + g)))));
  }

  /** Because min < max, at most one of the two length checks fails, so a
      bounded field contributes at most one error: the reference one. */
  lemma BoundedErrorsSegment(f: Field, value: string, displayName: string, min: int, max: int)
    requires min < max
    ensures BoundedErrors(f, value, displayName, min, max) ==
      ErrorsOf(f, BoundedError(value, displayName, min, max))
  {
    ValidateRequiredIff(value, displayName);
  }

  /** The single-validator fields get the reference verdict. */
  lemma PhoneValidatorAgrees(value: string)
    ensures ValidatePhone(value) == FieldError(Telefono, value)
  {
    ValidatePhoneIff(value);
  }

  lemma EmailValidatorAgrees(value: string)
    ensures ValidateEmail(value) == FieldError(Correo, value)
  {
    ValidateEmailIff(value);
  }

  lemma RequiredValidatorAgrees(f: Field, value: string, fieldName: string)
    requires f == Servicio || f == Presupuesto
    ensures ValidateRequired(value, fieldName) == FieldError(f, value)
  {
    ValidateRequiredIff(value, fieldName);
  }

  /** Each field's segment of the push sequence is its reference error. */
  lemma BoundedSegmentsAgree(d: ContactFormData)
    ensures BoundedErrors(Nombre, d.nombre, "Nombre", 2, 100) == ErrorsOf(Nombre, FieldError(Nombre, d.nombre))
    ensures BoundedErrors(Empresa, d.empresa, "Nombre de Empresa", 2, 150) ==
      ErrorsOf(Empresa, FieldError(Empresa, d.empresa))
    ensures BoundedErrors(Mensaje, d.mensaje, "Mensaje", 20, 1000) == ErrorsOf(Mensaje, FieldError(Mensaje, d.mensaje))
  {
    BoundedErrorsSegment(Nombre, d.nombre, "Nombre", 2, 100);
    BoundedErrorsSegment(Empresa, d.empresa, "Nombre de Empresa", 2, 150);
    BoundedErrorsSegment(Mensaje, d.mensaje, "Mensaje", 20, 1000);
  }

  lemma SingleSegmentsAgree(d: ContactFormData)
    ensures ErrorsOf(Telefono, ValidatePhone(d.telefono)) == ErrorsOf(Telefono, FieldError(Telefono, d.telefono))
    ensures ErrorsOf(Correo, ValidateEmail(d.correo)) == ErrorsOf(Correo, FieldError(Correo, d.correo))
    ensures ErrorsOf(Servicio, ValidateRequired(d.servicio, "Servicio")) ==
      ErrorsOf(Servicio, FieldError(Servicio, d.servicio))
    ensures ErrorsOf(Presupuesto, ValidateRequired(d.presupuesto, "Presupuesto")) ==
      ErrorsOf(Presupuesto, FieldError(Presupuesto, d.presupuesto))
  {
    PhoneValidatorAgrees(d.telefono);
    EmailValidatorAgrees(d.correo);
    RequiredValidatorAgrees(Servicio, d.servicio, "Servicio");
    RequiredValidatorAgrees(Presupuesto, d.presupuesto, "Presupuesto");
  }

  /** The push sequence of `validateContactForm` produces, field by field in
      the fixed order, exactly the reference errors. */
  lemma ValidateContactFormIsErrorsFrom(d: ContactFormData)
    ensures ValidateContactForm(d).errors == ErrorsFrom(AllFields, d)
  {
    BoundedSegmentsAgree(d);
    SingleSegmentsAgree(d);
    ErrorsFromAllFields(d);
    Regroup(BoundedErrors(Nombre, d.nombre, "Nombre", 2, 100),
      ErrorsOf(Telefono, ValidatePhone(d.telefono)),
      ErrorsOf(Correo, ValidateEmail(d.correo)),
      BoundedErrors(Empresa, d.empresa, "Nombre de Empresa", 2, 150),
      ErrorsOf(Servicio, ValidateRequired(d.servicio, "Servicio")),
      ErrorsOf(Presupuesto, ValidateRequired(d.presupuesto, "Presupuesto")),
      BoundedErrors(Mensaje, d.mensaje, "Mensaje", 20, 1000));
  }

  /** The fields of a list come in strictly increasing check order. */
  ghost predicate StrictlyOrdered(fields: seq<Field>) {
    forall i, j :: 0 <= i < j < |fields| ==> Rank(fields[i]) < Rank(fields[j])
  }

  /** Some entry of `errors` is about field `f`. */
  predicate HasEntry(errors: seq<FormFieldError>, f: Field) {
    exists i :: 0 <= i < |errors| && errors[i].field == f
  }

  ghost predicate ErrorsOrdered(errors: seq<FormFieldError>) {
    forall i, j :: 0 <= i < j < |errors| ==> Rank(errors[i].field) < Rank(errors[j].field)
  }

  /** Every entry comes from a visited field. */
  lemma {:induction false} ErrorsFromFields(fields: seq<Field>, d: ContactFormData)
    ensures forall e :: e in ErrorsFrom(fields, d) ==> e.field in fields
  {
    if fields != [] {
      var rest := fields[1..];
      ErrorsFromFields(rest, d);
      var seg := ErrorsOf(fields[0], FieldError(fields[0], Get(d, fields[0])));
      var tail := ErrorsFrom(rest, d);
      var all: seq<FormFieldError> := seg + tail;
      forall e | e in all ensures e.field in fields {
        if e !in seg {
          assert e in tail;
          assert e.field in rest;
        }
      }
    }
  }

  /** Every entry carries the message of its field's failing rule. */
  lemma {:induction false} ErrorsFromSound(fields: seq<Field>, d: ContactFormData)
    ensures forall e :: e in ErrorsFrom(fields, d) ==> FieldError(e.field, Get(d, e.field)) == Some(e.message)
  {
    if fields != [] {
      var rest := fields[1..];
      ErrorsFromSound(rest, d);
      var seg := ErrorsOf(fields[0], FieldError(fields[0], Get(d, fields[0])));
      var tail := ErrorsFrom(rest, d);
      var all: seq<FormFieldError> := seg + tail;
      forall e | e in all ensures FieldError(e.field, Get(d, e.field)) == Some(e.message) {
        if e !in seg {
          assert e in tail;
        }
      }
    }
  }

  /** Every visited field that fails has an entry. */
  lemma {:induction false} ErrorsFromComplete(fields: seq<Field>, d: ContactFormData)
    ensures forall f :: f in fields && FieldError(f, Get(d, f)).Some? ==>
      HasEntry(ErrorsFrom(fields, d), f)
  {
    if fields != [] {
      var rest := fields[1..];
      ErrorsFromComplete(rest, d);
      var seg := ErrorsOf(fields[0], FieldError(fields[0], Get(d, fields[0])));
      var tail := ErrorsFrom(rest, d);
      var all := ErrorsFrom(fields, d);
      assert all == seg + tail;
      forall f | f in fields && FieldError(f, Get(d, f)).Some?
        ensures HasEntry(all, f)
      {
        if f == fields[0] {
          assert all[0].field == f;
        } else {
          assert f in rest;
          var i :| 0 <= i < |tail| && tail[i].field == f;
          assert all[|seg| + i].field == f;
        }
      }
      assert all == ErrorsFrom(fields, d);
    }
  }

  /** Visiting fields in strictly increasing order yields errors in strictly
      increasing order. */
  lemma {:induction false} ErrorsFromOrdered(fields: seq<Field>, d: ContactFormData)
    requires StrictlyOrdered(fields)
    ensures ErrorsOrdered(ErrorsFrom(fields, d))
  {
    if fields != [] {
      var rest := fields[1..];
      assert StrictlyOrdered(rest) by {
        forall i, j | 0 <= i < j < |rest| ensures Rank(rest[i]) < Rank(rest[j]) {
          assert rest[i] == fields[i + 1] && rest[j] == fields[j + 1];
        }
      }
      ErrorsFromOrdered(rest, d);
      ErrorsFromFields(rest, d);
      var seg := ErrorsOf(fields[0], FieldError(fields[0], Get(d, fields[0])));
      var tail := ErrorsFrom(rest, d);
      var all := ErrorsFrom(fields, d);
      assert all == seg + tail;
      forall e | e in tail ensures Rank(fields[0]) < Rank(e.field) {
        var k :| 0 <= k < |rest| && rest[k] == e.field;
        assert fields[k + 1] == e.field;
      }
      forall i, j | 0 <= i < j < |all| ensures Rank(all[i].field) < Rank(all[j].field) {
        if i < |seg| {
          assert all[j] in tail;
        } else {
          assert all[i] == tail[i - |seg|] && all[j] == tail[j - |seg|];
        }
      }
    }
  }

  lemma AllFieldsOrdered()
    ensures StrictlyOrdered(AllFields)
  {
    assert forall i :: 0 <= i < |AllFields| ==> Rank(AllFields[i]) == i;
  }

  /** The form is valid exactly when no field fails its reference rule;
      `isValid` agrees with an empty error list. */
  lemma ValidateContactFormValidity(d: ContactFormData)
    ensures ValidateContactForm(d).isValid <==> |ValidateContactForm(d).errors| == 0
    ensures ValidateContactForm(d).isValid <==> forall f :: FieldError(f, Get(d, f)).None?
  {
    ValidateContactFormIsErrorsFrom(d);
    ReferenceErrors(d);
    ReferenceErrorsFields(d);
    var errors := ValidateContactForm(d).errors;
    if errors != [] {
      assert errors[0] in errors;
    }
  }

  /** The reference error list of a form is ordered, and every entry carries
      its field's message. */
  lemma ReferenceErrors(d: ContactFormData)
    ensures ErrorsOrdered(ErrorsFrom(AllFields, d))
    ensures forall e :: e in ErrorsFrom(AllFields, d) ==> FieldError(e.field, Get(d, e.field)) == Some(e.message)
  {
    AllFieldsOrdered();
    ErrorsFromOrdered(AllFields, d);
    ErrorsFromSound(AllFields, d);
  }

  lemma ReferenceErrorsFields(d: ContactFormData)
    ensures forall f :: FieldError(f, Get(d, f)).Some? <==>
      HasEntry(ErrorsFrom(AllFields, d), f)
  {
    forall f ensures FieldError(f, Get(d, f)).Some? <==>
      HasEntry(ErrorsFrom(AllFields, d), f)
    {
      ReferenceErrorsAt(d, f);
    }
  }

  /** One field of the reference error list: it has an entry exactly when it
      fails. */
  lemma ReferenceErrorsAt(d: ContactFormData, f: Field)
    ensures FieldError(f, Get(d, f)).Some? <==>
      HasEntry(ErrorsFrom(AllFields, d), f)
  {
    var errors := ErrorsFrom(AllFields, d);
    if HasEntry(errors, f) {
      var i :| 0 <= i < |errors| && errors[i].field == f;
      EntryMeansFailure(d, i);
    }
    if FieldError(f, Get(d, f)).Some? {
      FailureMeansEntry(d, f);
    }
  }

  lemma EntryMeansFailure(d: ContactFormData, i: int)
    requires 0 <= i < |ErrorsFrom(AllFields, d)|
    ensures FieldError(ErrorsFrom(AllFields, d)[i].field, Get(d, ErrorsFrom(AllFields, d)[i].field)).Some?
  {
    ErrorsFromSound(AllFields, d);
    assert ErrorsFrom(AllFields, d)[i] in ErrorsFrom(AllFields, d);
  }

  lemma FailureMeansEntry(d: ContactFormData, f: Field)
    requires FieldError(f, Get(d, f)).Some?
    ensures HasEntry(ErrorsFrom(AllFields, d), f)
  {
    ErrorsFromComplete(AllFields, d);
    assert AllFields[Rank(f)] == f;
  }

  /** The errors come in the fixed field order, at most one per field; a field
      has an entry exactly when it fails its reference rule, and the entry
      carries the reference message. */
  lemma ValidateContactFormErrors(d: ContactFormData)
    ensures ErrorsOrdered(ValidateContactForm(d).errors)
    ensures forall e :: e in ValidateContactForm(d).errors ==>
      FieldError(e.field, Get(d, e.field)) == Some(e.message)
    ensures forall f :: FieldError(f, Get(d, f)).Some? <==>
      HasEntry(ValidateContactForm(d).errors, f)
  {
    ValidateContactFormIsErrorsFrom(d);
    ReferenceErrors(d);
    ReferenceErrorsFields(d);
  }

  /** No field appears twice in an ordered error list. */
  lemma OrderedErrorsDistinct(errors: seq<FormFieldError>)
    requires ErrorsOrdered(errors)
    ensures forall i, j :: 0 <= i < j < |errors| ==> errors[i].field != errors[j].field
  {
  }
}
