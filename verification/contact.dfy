/** The client-side part of the contact form (src/pages/Contact.jsx): the form state, the
    field edits, the validation `handleSubmit` performs before anything is sent, and the
    reset after a successful submission. The submission itself is not modelled. */
module Contact {
  import opened Wrappers
  import opened JsString

  /** A character the pattern's class `[^\s@]` accepts. */
  predicate Plain(c: char) {
    !IsWhite(c) && c != '@'
  }

  predicate AllPlain(s: string) {
    forall i :: 0 <= i < |s| ==> Plain(s[i])
  }

  /** `^[^\s@]+@[^\s@]+\.[^\s@]+$` matches `e`: some `@` at `i` and `.` at `j` cut `e` into
      three non-empty runs of plain characters. The middle and last runs may hold dots. */
  predicate MatchesEmailPattern(e: string) {
    exists i, j :: 0 < i && i + 1 < j && j + 1 < |e| && e[i] == '@' && e[j] == '.'
      && AllPlain(e[..i]) && AllPlain(e[i + 1..j]) && AllPlain(e[j + 1..])
  }

  /** The position of the first `c` in `s`. */
  function IndexOf(s: string, c: char): (r: Option<nat>)
    ensures r.None? <==> c !in s
    ensures r.Some? ==> r.value < |s| && s[r.value] == c && forall m :: 0 <= m < r.value ==> s[m] != c
  {
    if |s| == 0 then None
    else if s[0] == c then Some(0)
    else
      match IndexOf(s[1..], c)
      case None => None
      case Some(k) => Some(k + 1)
  }

  /** `validateEmail`, read from left to right: up to the first `@` a non-empty plain local
      part; after it a plain domain of at least three characters with a dot that is neither
      its first nor its last character. */
  function ValidEmail(e: string): bool {
    match IndexOf(e, '@')
    case None => false
    case Some(i) =>
      var d := e[i + 1..];
      i > 0 && AllPlain(e[..i]) && AllPlain(d) && |d| >= 3 && '.' in d[1..|d| - 1]
  }

  /** The left-to-right reading agrees with the pattern on every string. */
  lemma ValidEmailIff(e: string)
    ensures ValidEmail(e) <==> MatchesEmailPattern(e)
  {
    if ValidEmail(e) {
      ValidEmailMatches(e);
    }
    if MatchesEmailPattern(e) {
      MatchesValidEmail(e);
    }
  }

  lemma ValidEmailMatches(e: string)
    requires ValidEmail(e)
    ensures MatchesEmailPattern(e)
  {
    var i := IndexOf(e, '@').value;
    var d := e[i + 1..];
    var mid := d[1..|d| - 1];
    var k :| 0 <= k < |mid| && mid[k] == '.';
    var j := i + 2 + k;
    assert mid[k] == d[k + 1] == e[j];
    AllPlainSlice(d, 0, k + 1);
    AllPlainSlice(d, k + 2, |d|);
    assert e[i + 1..j] == d[0..k + 1];
    assert e[j + 1..] == d[k + 2..|d|];
  }

  /** Every piece of a plain run is plain. */
  lemma AllPlainSlice(s: string, a: nat, b: nat)
    requires a <= b <= |s| && AllPlain(s)
    ensures AllPlain(s[a..b])
  {
    forall m | 0 <= m < b - a
      ensures Plain(s[a..b][m])
    {
      assert s[a..b][m] == s[a + m];
    }
  }

  /** A plain run holds no `@`. */
  lemma PlainNoAt(e: string, i: nat)
    requires i <= |e| && AllPlain(e[..i])
    ensures forall m :: 0 <= m < i ==> e[m] != '@'
  {
    forall m | 0 <= m < i
      ensures e[m] != '@'
    {
      assert Plain(e[..i][m]);
    }
  }

  lemma MatchesValidEmail(e: string)
    requires MatchesEmailPattern(e)
    ensures ValidEmail(e)
  {
    var i, j :| 0 < i && i + 1 < j && j + 1 < |e| && e[i] == '@' && e[j] == '.'
      && AllPlain(e[..i]) && AllPlain(e[i + 1..j]) && AllPlain(e[j + 1..]);
    FirstAt(e, i);
    DomainPlain(e, i, j);
    DotInDomain(e, i, j);
    ValidEmailAt(e, i);
  }

  /** An `@` with only plain characters before it is the first one. */
  lemma FirstAt(e: string, i: nat)
    requires i < |e| && e[i] == '@' && AllPlain(e[..i])
    ensures IndexOf(e, '@') == Some(i)
  {
    PlainNoAt(e, i);
    assert e[i] in e;
  }

  /** A dot between the `@` and the last character is inside the domain's middle. */
  lemma DotInDomain(e: string, i: nat, j: nat)
    requires i + 1 < j && j + 1 < |e| && e[j] == '.'
    ensures |e[i + 1..]| >= 3 && '.' in e[i + 1..][1..|e[i + 1..]| - 1]
  {
    var d := e[i + 1..];
    assert d[1..|d| - 1][j - i - 2] == e[j];
  }

  lemma ValidEmailAt(e: string, i: nat)
    requires IndexOf(e, '@') == Some(i) && i > 0
    requires AllPlain(e[..i]) && AllPlain(e[i + 1..])
    requires |e[i + 1..]| >= 3 && '.' in e[i + 1..][1..|e[i + 1..]| - 1]
    ensures ValidEmail(e)
  {
  }

  /** The two plain runs around the dot and the dot itself make a plain domain. */
  lemma DomainPlain(e: string, i: nat, j: nat)
    requires i + 1 < j < |e| && e[j] == '.'
    requires AllPlain(e[i + 1..j]) && AllPlain(e[j + 1..])
    ensures AllPlain(e[i + 1..])
  {
    var d := e[i + 1..];
    forall m | 0 <= m < |d|
      ensures Plain(d[m])
    {
      if i + 1 + m < j {
        assert d[m] == e[i + 1..j][m];
      } else if i + 1 + m > j {
        assert d[m] == e[j + 1..][i + m - j];
      }
    }
  }

  /** `e` has its only `@` at `i`, something before it, and after it a part of at least three
      characters with a dot that is neither its first nor its last character. */
  predicate SplitsAt(e: string, i: nat) {
    && 0 < i < |e| && e[i] == '@'
    && (forall m :: 0 <= m < |e| && m != i ==> e[m] != '@')
    && |e| - i - 1 >= 3 && '.' in e[i + 2..|e| - 1]
  }

  predicate NoWhitespace(e: string) {
    forall m :: 0 <= m < |e| ==> !IsWhite(e[m])
  }

  /** The validity test in the terms of its plain description: no whitespace, exactly one
      `@`, something before it, and after it a dot with a character on each side. */
  lemma ValidEmailShape(e: string)
    ensures ValidEmail(e) <==> NoWhitespace(e) && exists i :: SplitsAt(e, i)
  {
    if ValidEmail(e) {
      ValidEmailSplits(e);
    }
    if NoWhitespace(e) && exists i :: SplitsAt(e, i) {
      var i :| SplitsAt(e, i);
      SplitsValidEmail(e, i);
    }
  }

  lemma ValidEmailSplits(e: string)
    requires ValidEmail(e)
    ensures NoWhitespace(e) && SplitsAt(e, IndexOf(e, '@').value)
  {
    var i := IndexOf(e, '@').value;
    var d := e[i + 1..];
    forall m | 0 <= m < |e|
      ensures !IsWhite(e[m]) && (m != i ==> e[m] != '@')
    {
      if m < i {
        assert Plain(e[..i][m]);
      } else if m > i {
        assert Plain(d[m - i - 1]);
      }
    }
    assert e[i + 2..|e| - 1] == d[1..|d| - 1];
  }

  lemma SplitsValidEmail(e: string, i: nat)
    requires NoWhitespace(e) && SplitsAt(e, i)
    ensures ValidEmail(e)
  {
    assert e[i] in e;
    assert IndexOf(e, '@').value == i;
    var d := e[i + 1..];
    forall m | 0 <= m < i
      ensures Plain(e[..i][m])
    {
      assert e[..i][m] == e[m];
    }
    forall m | 0 <= m < |d|
      ensures Plain(d[m])
    {
      assert d[m] == e[i + 1 + m];
    }
    assert e[i + 2..|e| - 1] == d[1..|d| - 1];
  }

  /** `formData`. */
  datatype Form = Form(name: string, email: string, message: string, inquiryType: string)

  /** The state the form starts in and returns to after a successful submission. */
  const InitialForm: Form := Form("", "", "", "general")

  /** The `name` attributes of the inputs. */
  datatype FormField = Name | Email | Message | InquiryType

  function FieldValue(f: Form, field: FormField): string {
    match field
    case Name => f.name
    case Email => f.email
    case Message => f.message
    case InquiryType => f.inquiryType
  }

  /** The component's state apart from the loading flag of the request. */
  datatype ContactState = ContactState(form: Form, submitted: bool, error: string)

  const InitialState: ContactState := ContactState(InitialForm, false, "")

  /** `handleChange`: the edited input's field takes the new value, every other field keeps
      its value, and the error message is cleared. */
  function HandleChange(s: ContactState, field: FormField, value: string): (r: ContactState)
    ensures forall g :: FieldValue(r.form, g) == if g == field then value else FieldValue(s.form, g)
    ensures r.error == "" && r.submitted == s.submitted
  {
    var f := s.form;
    var form := match field
      case Name => f.(name := value)
      case Email => f.(email := value)
      case Message => f.(message := value)
      case InquiryType => f.(inquiryType := value);
    ContactState(form, s.submitted, "")
  }

  const RequiredMessage: string := "Please fill in all required fields."
  const EmailMessage: string := "Please enter a valid email address."

  /** The checks `handleSubmit` makes before sending: the message of the first failing one,
      or `None` when the form may be sent. */
  function Validate(f: Form): (r: Option<string>)
    ensures r == Some(RequiredMessage) <==> f.name == "" || f.email == "" || f.message == ""
    ensures r == Some(EmailMessage) <==> f.name != "" && f.email != "" && f.message != "" && !MatchesEmailPattern(f.email)
    ensures r.None? <==> f.name != "" && f.email != "" && f.message != "" && MatchesEmailPattern(f.email)
  {
    ValidEmailIff(f.email);
    assert RequiredMessage[7] != EmailMessage[7];
    if f.name == "" || f.email == "" || f.message == "" then Some(RequiredMessage)
    else if !ValidEmail(f.email) then Some(EmailMessage)
    else None
  }

  /** The synchronous start of `handleSubmit`: the submitted flag is lowered and the error is
      the validation message, or empty when the request is about to be sent. The form itself
      is left as it is. */
  function BeginSubmit(s: ContactState): (r: ContactState)
    ensures r.form == s.form && !r.submitted
    ensures r.error == "" <==> Validate(s.form).None?
    ensures Validate(s.form).Some? ==> r.error == Validate(s.form).value
  {
    ContactState(s.form, false, Validate(s.form).GetOr(""))
  }

  /** What a successful submission leaves: the success notice and a cleared form. */
  function Delivered(s: ContactState): (r: ContactState)
    ensures r.form == InitialForm && r.submitted
  {
    s.(form := InitialForm, submitted := true)
  }

  /** The category of the inquiry never changes the outcome of validation. */
  lemma InquiryTypeIrrelevant(f: Form, t: string)
    ensures Validate(f.(inquiryType := t)) == Validate(f)
  {
  }

  /** Only emptiness is checked: a name and a message of nothing but whitespace count as
      filled in, whatever the inquiry type, and the outcome is then the email check's alone. */
  lemma BlankCountsAsContent(name: string, email: string, message: string, t: string)
    requires |name| > 0 && AllWhite(name)
    requires |message| > 0 && AllWhite(message)
    requires email != ""
    ensures Validate(Form(name, email, message, t)) != Some(RequiredMessage)
    ensures Validate(Form(name, email, message, t)) ==
      if MatchesEmailPattern(email) then None else Some(EmailMessage)
  {
  }

  /** After a successful submission, submitting again at once asks for the required
      fields. */
  lemma ResubmitAfterDelivery(s: ContactState)
    ensures BeginSubmit(Delivered(s)).error == RequiredMessage
  {
  }
}
