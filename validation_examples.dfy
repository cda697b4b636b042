/** The concrete cases the validators' unit tests exercise, stated as
    lemmas about the model. */
module ValidationExamples {
  import opened Wrappers
  import opened JsString
  import opened FormValidation

  /** `c` repeated `n` times, as `'A'.repeat(n)`. */
  function Repeat(c: char, n: nat): (r: string)
    ensures |r| == n && forall k :: 0 <= k < n ==> r[k] == c
  {
    if n == 0 then [] else [c] + Repeat(c, n - 1)
  }

  lemma RequiredRejectsEmpty()
    ensures ValidateRequired("", "Nombre") == Some("Este campo es obligatorio")
  {
  }

  lemma RequiredAcceptsName()
    ensures ValidateRequired("Carlos", "Nombre") == None
  {
    ValidateRequiredIff("Carlos", "Nombre");
    assert !IsSpace("Carlos"[5]);
  }

  lemma EmailRejections()
    ensures ValidateEmail("") == Some("Por favor ingresa un correo electronico valido")
    ensures ValidateEmail("invalid") == Some(EmailMessage)
    ensures ValidateEmail("invalid@") == Some(EmailMessage)
    ensures ValidateEmail("@domain.com") == Some(EmailMessage)
  {
    assert FirstIndexOf("invalid", '@').None?;
    assert FirstIndexOf("invalid@", '@') == Some(7);
    assert FirstIndexOf("@domain.com", '@') == Some(0);
  }

  lemma EmailAcceptsPlainAddress()
    ensures ValidateEmail("test@example.com") == None
  {
    assert "test@example.com" == "test" + "@" + "example" + "." + "com";
    Accepts("test", "example", "com");
  }

  lemma EmailAcceptsDottedLocalPart()
    ensures ValidateEmail("user.name@domain.co") == None
  {
    assert "user.name@domain.co" == "user.name" + "@" + "domain" + "." + "co";
    Accepts("user.name", "domain", "co");
  }

  lemma EmailAcceptsPlusTag()
    ensures ValidateEmail("user+tag@example.org") == None
  {
    assert "user+tag@example.org" == "user+tag" + "@" + "example" + "." + "org";
    Accepts("user+tag", "example", "org");
  }

  /** L@A.B is accepted whenever its three parts are non-empty runs of
      characters that are neither white space nor '@'. */
  lemma Accepts(l: string, a: string, b: string)
    requires l != [] && a != [] && b != []
    requires Plain(l) && Plain(a) && Plain(b)
    ensures ValidateEmail(l + "@" + a + "." + b) == None
  {
    var s := l + "@" + a + "." + b;
    var i, j := |l|, |l| + 1 + |a|;
    assert s[..i] == l;
    assert s[i + 1..j] == a;
    assert s[j + 1..] == b;
    PlainNoSpaceNoAt(l);
    PlainNoSpaceNoAt(a);
    PlainNoSpaceNoAt(b);
    EmailPatternTestComplete(s, i, j);
    assert s[0] == l[0];
  }

  lemma PlainNoSpaceNoAt(t: string)
    requires Plain(t)
    ensures NoSpaceNoAt(t)
  {
  }

  /** Lower-case letters, '.' and '+': none is white space or '@'. */
  predicate Plain(t: string) {
    forall k :: 0 <= k < |t| ==> ('a' <= t[k] <= 'z' || t[k] == '.' || t[k] == '+')
  }

  lemma PhoneAcceptsDigits()
    ensures ValidatePhone("12345678") == None
  {
    PhoneAccepts("12345678");
  }

  lemma PhoneAcceptsGrouped()
    ensures ValidatePhone("1234 5678") == None
  {
    PhoneAccepts("1234 5678");
  }

  lemma PhoneAcceptsAreaCode()
    ensures ValidatePhone("(502) 1234-5678") == None
  {
    PhoneAccepts("(502) 1234-5678");
  }

  lemma PhoneAcceptsCountryCode()
    ensures ValidatePhone("+502 1234-5678") == None
  {
    PhoneAccepts("+502 1234-5678");
  }

  lemma PhoneAcceptsDashed()
    ensures ValidatePhone("123-456-7890") == None
  {
    PhoneAccepts("123-456-7890");
  }

  /** A digit, ' ', '-', '(', ')' or '+': the printable part of the phone
      alphabet. */
  predicate PhoneSymbol(c: char) {
    '0' <= c <= '9' || c == ' ' || c == '-' || c == '(' || c == ')' || c == '+'
  }

  /** A value starting with a digit, '(' or '+' and drawn from the printable
      phone alphabet is accepted. */
  lemma PhoneAccepts(s: string)
    requires s != [] && (s[0] == '(' || s[0] == '+' || '0' <= s[0] <= '9')
    requires forall k :: 0 <= k < |s| ==> PhoneSymbol(s[k])
    ensures ValidatePhone(s) == None
  {
    ValidatePhoneIff(s);
    assert forall k :: 0 <= k < |s| ==> IsPhoneChar(s[k]);
    assert !IsSpace(s[0]);
  }

  lemma PhoneRejections()
    ensures ValidatePhone("") == Some("Por favor ingresa un numero de telefono valido")
    ensures ValidatePhone("abc123") == Some(PhoneMessage)
    ensures ValidatePhone("phone: 123") == Some(PhoneMessage)
  {
    PhoneRejects("abc123", 0);
    PhoneRejects("phone: 123", 0);
  }

  lemma PhoneRejects(s: string, k: nat)
    requires k < |s| && !IsPhoneChar(s[k])
    ensures ValidatePhone(s) == Some(PhoneMessage)
  {
    ValidatePhoneIff(s);
  }

  lemma MinLengthExamples()
    ensures ValidateMinLength("A", 2, "Nombre") == Some(MinLengthMessage("Nombre", 2))
    ensures ValidateMinLength("AB", 2, "Nombre") == None
    ensures ValidateMinLength("ABC", 2, "Nombre") == None
  {
    assert IntToString(2) == "2";
  }

  lemma MaxLengthExamples()
    ensures ValidateMaxLength(Repeat('A', 101), 100, "Nombre") == Some(MaxLengthMessage("Nombre", 100))
    ensures ValidateMaxLength(Repeat('A', 100), 100, "Nombre") == None
    ensures ValidateMaxLength(Repeat('A', 50), 100, "Nombre") == None
  {
    Utf16LengthOfBmp(Repeat('A', 101));
    Utf16LengthOfBmp(Repeat('A', 100));
    Utf16LengthOfBmp(Repeat('A', 50));
  }

  lemma MinLengthMessageExample()
    ensures MinLengthMessage("Nombre", 2) == "El campo Nombre debe tener al menos 2 caracteres"
  {
    MinLengthMessageText();
    assert NatToString(2) == "2";
  }

  lemma MaxLengthMessageExample()
    ensures MaxLengthMessage("Nombre", 100) == "El campo Nombre no puede exceder 100 caracteres"
  {
    MaxLengthMessageText();
    assert NatToString(10) == "10";
    assert NatToString(100) == "100";
  }

  /** The expected texts of the two message tests, split where the bound is
      interpolated. */
  lemma MinLengthMessageText()
    ensures "El campo Nombre debe tener al menos 2 caracteres" ==
      MinLengthPrefix("Nombre") + "2" + " caracteres"
  {
  }

  lemma MaxLengthMessageText()
    ensures "El campo Nombre no puede exceder 100 caracteres" ==
      MaxLengthPrefix("Nombre") + "100" + " caracteres"
  {
  }

  /** The all-empty form: not valid, and one error per field in the fixed
      order, the required message except for the two format validators. */
  lemma EmptyFormErrors()
    ensures ValidateContactForm(ContactFormData("", "", "", "", "", "", "")) ==
      ValidationResult(false, [
        FormFieldError(Nombre, RequiredMessage),
        FormFieldError(Telefono, PhoneMessage),
        FormFieldError(Correo, EmailMessage),
        FormFieldError(Empresa, RequiredMessage),
        FormFieldError(Servicio, RequiredMessage),
        FormFieldError(Presupuesto, RequiredMessage),
        FormFieldError(Mensaje, RequiredMessage)])
  {
  }

  const SampleForm := ContactFormData(
    "Carlos Alvarez", "1234 5678", "carlos@example.com", "Mi Empresa S.A.",
    "Desarrollo de Software", "$1,000-$5,000",
    "Este es un mensaje de prueba con mas de veinte caracteres.")

  lemma SampleNamePasses()
    ensures FieldError(Nombre, SampleForm.nombre).None?
  {
    assert !IsSpace(SampleForm.nombre[0]);
  }

  lemma SampleCompanyPasses()
    ensures FieldError(Empresa, SampleForm.empresa).None?
  {
    assert !IsSpace(SampleForm.empresa[0]);
  }

  lemma SampleChoicesPass()
    ensures FieldError(Servicio, SampleForm.servicio).None?
    ensures FieldError(Presupuesto, SampleForm.presupuesto).None?
  {
    assert !IsSpace(SampleForm.servicio[0]);
    assert !IsSpace(SampleForm.presupuesto[0]);
  }

  lemma SampleMessagePasses()
    ensures FieldError(Mensaje, SampleForm.mensaje).None?
  {
    var m := SampleForm.mensaje;
    assert |m| == 58 && m[57] == '.';
    MessageWithinBounds(m, 57);
  }

  /** A message of 20 to 500 characters with some character that is not
      white space passes. */
  lemma MessageWithinBounds(m: string, k: nat)
    requires k < |m| && !IsSpace(m[k])
    requires 20 <= |m| <= 500
    ensures FieldError(Mensaje, m).None?
  {
  }

  lemma SamplePhonePasses()
    ensures FieldError(Telefono, SampleForm.telefono).None?
  {
    PhoneAccepts(SampleForm.telefono);
    PhoneValidatorAgrees(SampleForm.telefono);
  }

  lemma SampleEmailPasses()
    ensures FieldError(Correo, SampleForm.correo).None?
  {
    assert SampleForm.correo == "carlos" + "@" + "example" + "." + "com";
    Accepts("carlos", "example", "com");
    EmailValidatorAgrees(SampleForm.correo);
  }

  /** The filled-in sample form passes with no errors. */
  lemma SampleFormValid()
    ensures ValidateContactForm(SampleForm) == ValidationResult(true, [])
  {
    SampleNamePasses();
    SampleCompanyPasses();
    SampleChoicesPass();
    SampleMessagePasses();
    SamplePhonePasses();
    SampleEmailPasses();
    forall f ensures FieldError(f, Get(SampleForm, f)).None? {
      match f
      case Nombre =>
      case Telefono =>
      case Correo =>
      case Empresa =>
      case Servicio =>
      case Presupuesto =>
      case Mensaje =>
    }
    ValidateContactFormValidity(SampleForm);
  }
}
