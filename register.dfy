/** The sign-up form of frontend/src/components/auth/Register.jsx: per-field
    validation as the user types, the overall validity test, and the guard
    in front of the registration request. */
module Register {

  datatype Field = Name | Email | Password | Phone | Role

  /** The form's payload object. */
  datatype Payload = Payload(name: string, email: string, password: string, phone: string, role: string)

  const NameTooShort := "Name must be at least 3 characters."
  const InvalidEmail := "Enter a valid email address."
  const PasswordTooShort := "Password must be at least 6 characters."
  const PasswordNeedsDigit := "Password must contain at least one number."
  const FixErrors := "Please fix the errors before submitting."

  /** `{ ...p, [field]: value }`. */
  function WithField(p: Payload, field: Field, value: string): (r: Payload)
    ensures field == Name ==> r == p.(name := value)
    ensures field == Email ==> r == p.(email := value)
    ensures field == Password ==> r == p.(password := value)
    ensures field == Phone ==> r == p.(phone := value)
    ensures field == Role ==> r == p.(role := value)
  {
    match field
    case Name => p.(name := value)
    case Email => p.(email := value)
    case Password => p.(password := value)
    case Phone => p.(phone := value)
    case Role => p.(role := value)
  }

  /** The characters ECMAScript counts as white space or line terminators:
      the `\s` class of a regular expression and what `trim` strips. */
  predicate IsJsWhitespace(c: char)
  {
    c == '\t' || c == '\n' || c == '\U{000B}' || c == '\U{000C}' || c == '\r' || c == ' '
    || c == '\U{00A0}' || c == '\U{1680}' || ('\U{2000}' <= c <= '\U{200A}')
    || c == '\U{2028}' || c == '\U{2029}' || c == '\U{202F}' || c == '\U{205F}'
    || c == '\U{3000}' || c == '\U{FEFF}'
  }

  predicate AllWhitespace(s: string)
  {
    forall k :: 0 <= k < |s| ==> IsJsWhitespace(s[k])
  }

  /** Drops the leading white space. */
  function TrimStart(s: string): (r: string)
    ensures |r| <= |s| && r == s[|s| - |r|..]
    ensures AllWhitespace(s[..|s| - |r|])
    ensures r == [] || !IsJsWhitespace(r[0])
  {
    if s != [] && IsJsWhitespace(s[0]) then TrimStart(s[1..]) else s
  }

  /** Drops the trailing white space. */
  function TrimEnd(s: string): (r: string)
    ensures |r| <= |s| && r == s[..|r|]
    ensures AllWhitespace(s[|r|..])
    ensures r == [] || !IsJsWhitespace(r[|r| - 1])
  {
    if s != [] && IsJsWhitespace(s[|s| - 1]) then TrimEnd(s[..|s| - 1]) else s
  }

  /** `String.prototype.trim`. */
  function Trim(s: string): string
  {
    TrimEnd(TrimStart(s))
  }

  /** `trim` cuts white space, and only white space, from both ends: its
      result is a slice of s that neither starts nor ends with white space. */
  lemma TrimCutsOnlyWhitespace(s: string)
    ensures var r := Trim(s);
      (r == [] || (!IsJsWhitespace(r[0]) && !IsJsWhitespace(r[|r| - 1])))
      && exists i :: (0 <= i <= |s| - |r| && r == s[i..i + |r|]
        && AllWhitespace(s[..i]) && AllWhitespace(s[i + |r|..]))
  {
    TrimEdges(s);
    var t := TrimStart(s);
    WhitespaceFramedSlice(s, t, TrimEnd(t));
    var i := |s| - |t|;
    assert 0 <= i <= |s| - |Trim(s)|;
  }

  lemma TrimEdges(s: string)
    ensures var r := Trim(s); r == [] || (!IsJsWhitespace(r[0]) && !IsJsWhitespace(r[|r| - 1]))
  {
    var t := TrimStart(s);
    var r := TrimEnd(t);
    assert r != [] ==> r[0] == t[0];
  }

  /** Cutting white space off the front of s and then off the back of what is
      left leaves a slice of s framed by white space. */
  lemma WhitespaceFramedSlice(s: string, t: string, r: string)
    requires |t| <= |s| && t == s[|s| - |t|..] && AllWhitespace(s[..|s| - |t|])
    requires |r| <= |t| && r == t[..|r|] && AllWhitespace(t[|r|..])
    ensures var i := |s| - |t|;
      (r == s[i..i + |r|] && AllWhitespace(s[..i]) && AllWhitespace(s[i + |r|..]))
  {
    var i := |s| - |t|;
    assert t[..|r|] == s[i..i + |r|];
    assert s[i + |r|..] == t[|r|..];
  }

  /** `/\d/.test(s)`. */
  predicate HasDigit(s: string)
  {
    exists k :: 0 <= k < |s| && '0' <= s[k] <= '9'
  }

  /** Every character is in the class `[^\s@]`. */
  predicate NoSpaceOrAt(s: string)
  {
    forall k :: 0 <= k < |s| ==> !IsJsWhitespace(s[k]) && s[k] != '@'
  }

  /** `/^[^\s@]+@[^\s@]+\.[^\s@]+$/.test(s)`: three non-empty runs of
      `[^\s@]`, the first two separated by `@`, the last two by `.`. */
  predicate EmailRegex(s: string)
  {
    exists at, dot :: 0 < at && at + 1 < dot && dot + 1 < |s| && s[at] == '@' && s[dot] == '.'
      && NoSpaceOrAt(s[..at]) && NoSpaceOrAt(s[at + 1..dot]) && NoSpaceOrAt(s[dot + 1..])
  }

  /** d has a '.' that is neither its first nor its last character. */
  predicate HasInnerDot(d: string)
  {
    exists j :: 0 < j < |d| - 1 && d[j] == '.'
  }

  /** The shape `L@D`: L non-empty, neither part holding white space or '@',
      and D holding an inner '.'. */
  predicate LocalAtDomain(s: string)
  {
    exists at :: 0 < at < |s| && s[at] == '@'
      && NoSpaceOrAt(s[..at]) && NoSpaceOrAt(s[at + 1..]) && HasInnerDot(s[at + 1..])
  }

  /** The error `validateField` stores for one field; a later check in the
      source overwrites an earlier one, so the digit error wins over the
      length error. */
  function FieldError(field: Field, value: string): (msg: string)
    ensures field == Name ==> (msg == "" <==> |Trim(value)| >= 3) && (msg != "" ==> msg == NameTooShort)
    ensures field == Email ==> (msg == "" <==> EmailRegex(value)) && (msg != "" ==> msg == InvalidEmail)
    ensures field == Password && !HasDigit(value) ==> msg == PasswordNeedsDigit
    ensures field == Password && HasDigit(value) ==> (msg == "" <==> |value| >= 6) && (msg != "" ==> msg == PasswordTooShort)
    ensures field == Phone || field == Role ==> msg == ""
  {
    match field
    case Name => if |Trim(value)| < 3 then NameTooShort else ""
    case Email => if EmailRegex(value) then "" else InvalidEmail
    case Password => if !HasDigit(value) then PasswordNeedsDigit else if |value| < 6 then PasswordTooShort else ""
    case _ => ""
  }

  /** `!errors[field]`: the field has no error, or an empty one. */
  predicate NoError(errors: map<Field, string>, field: Field)
  {
    field !in errors || errors[field] == ""
  }

  /** `isFormValid`: the lengths of the untrimmed name, email and password,
      and the stored email and password errors; the stored name error is not
      read. */
  predicate FormValid(p: Payload, errors: map<Field, string>)
  {
    |p.name| >= 3 && |p.email| > 5 && NoError(errors, Email) && NoError(errors, Password) && |p.password| >= 6
  }

  /** A run of `[^\s@]` stays one when cut. */
  lemma NoSpaceOrAtSlice(s: string, lo: int, hi: int, i: int, j: int)
    requires 0 <= lo <= i <= j <= hi <= |s| && NoSpaceOrAt(s[lo..hi])
    ensures NoSpaceOrAt(s[i..j])
  {
    forall k | 0 <= k < j - i
      ensures !IsJsWhitespace(s[i..j][k]) && s[i..j][k] != '@'
    {
      assert s[i..j][k] == s[lo..hi][k + i - lo];
    }
  }

  /** Every address the email pattern matches has the `L@D` shape. */
  lemma RegexGivesLocalAtDomain(s: string)
    requires EmailRegex(s)
    ensures LocalAtDomain(s)
  {
    var at, dot :| 0 < at && at + 1 < dot && dot + 1 < |s| && s[at] == '@' && s[dot] == '.'
      && NoSpaceOrAt(s[..at]) && NoSpaceOrAt(s[at + 1..dot]) && NoSpaceOrAt(s[dot + 1..]);
    var d := s[at + 1..];
    forall k | 0 <= k < |d|
      ensures !IsJsWhitespace(d[k]) && d[k] != '@'
    {
      if k < dot - at - 1 {
        assert d[k] == s[at + 1..dot][k];
      } else if k > dot - at - 1 {
        assert d[k] == s[dot + 1..][k - (dot - at)];
      }
    }
    assert d[dot - at - 1] == '.';
  }

  /** Every address of the `L@D` shape matches the email pattern. */
  lemma LocalAtDomainGivesRegex(s: string)
    requires LocalAtDomain(s)
    ensures EmailRegex(s)
  {
    var at :| 0 < at < |s| && s[at] == '@'
      && NoSpaceOrAt(s[..at]) && NoSpaceOrAt(s[at + 1..]) && HasInnerDot(s[at + 1..]);
    var d := s[at + 1..];
    var j :| 0 < j < |d| - 1 && d[j] == '.';
    var dot := at + 1 + j;
    assert s[dot] == d[j];
    NoSpaceOrAtSlice(s, at + 1, |s|, at + 1, dot);
    NoSpaceOrAtSlice(s, at + 1, |s|, dot + 1, |s|);
    assert 0 < at && at + 1 < dot && dot + 1 < |s| && s[at] == '@' && s[dot] == '.'
      && NoSpaceOrAt(s[..at]) && NoSpaceOrAt(s[at + 1..dot]) && NoSpaceOrAt(s[dot + 1..]);
  }

  /** The source's email pattern accepts exactly the `L@D` shape. */
  lemma EmailRegexIsLocalAtDomain(s: string)
    ensures EmailRegex(s) <==> LocalAtDomain(s)
  {
    if EmailRegex(s) {
      RegexGivesLocalAtDomain(s);
    }
    if LocalAtDomain(s) {
      LocalAtDomainGivesRegex(s);
    }
  }

  /** The email error is empty exactly for addresses of the `L@D` shape. */
  lemma EmailAcceptedExactly(value: string)
    ensures FieldError(Email, value) == "" <==> LocalAtDomain(value)
  {
    EmailRegexIsLocalAtDomain(value);
  }

  /** The stored name error never changes whether the form is valid. */
  lemma NameErrorIgnored(p: Payload, errors: map<Field, string>, msg: string)
    ensures FormValid(p, errors[Name := msg]) == FormValid(p, errors)
  {
  }

  /** A name of two letters and a trailing space fails its own check but
      passes the form check, which counts the untrimmed length. */
  lemma PaddedShortNamePasses()
    ensures FieldError(Name, "ab ") == NameTooShort
    ensures FormValid(Payload("ab ", "ab@c.de", "secret1", "", "student"), map[Name := NameTooShort])
  {
    assert !IsJsWhitespace('a') && !IsJsWhitespace('b') && IsJsWhitespace(' ');
    assert TrimStart("ab ") == "ab ";
    assert "ab "[..2] == "ab";
    assert TrimEnd("ab ") == TrimEnd("ab") == "ab";
  }

  /** "a@b.c" passes the email check but is one character short of the
      form's email length test. */
  lemma ShortestEmailFailsForm(p: Payload)
    requires p.name == "Ravi" && p.email == "a@b.c" && p.password == "secret1"
    ensures FieldError(Email, p.email) == ""
    ensures !FormValid(p, map[Email := "", Password := ""])
  {
    assert "a@b.c"[1] == '@' && "a@b.c"[3] == '.';
    assert NoSpaceOrAt("a@b.c"[..1]) && NoSpaceOrAt("a@b.c"[2..3]) && NoSpaceOrAt("a@b.c"[4..]);
  }

  class RegisterForm {
    var payload: Payload
    var errors: map<Field, string>
    var serverError: string
    var busy: bool
    /** The payloads posted to `/auth/register`, oldest first. */
    var sent: seq<Payload>

    /** The initial `useState` values. */
    constructor ()
      ensures payload == Payload("", "", "", "", "student")
      ensures errors == map[] && serverError == "" && !busy && sent == []
    {
      payload := Payload("", "", "", "", "student");
      errors := map[];
      serverError := "";
      busy := false;
      sent := [];
    }

    /** `validateField`: the checks run in order, each failing one
        overwriting `msg`, and the last value is stored for the field. */
    method ValidateField(field: Field, value: string)
      modifies this
      ensures errors == old(errors)[field := FieldError(field, value)]
      ensures payload == old(payload) && serverError == old(serverError)
      ensures busy == old(busy) && sent == old(sent)
    {
      var msg := "";
      if field == Name && |Trim(value)| < 3 {
        msg := NameTooShort;
      }
      if field == Email && !EmailRegex(value) {
        msg := InvalidEmail;
      }
      if field == Password && |value| < 6 {
        msg := PasswordTooShort;
      }
      if field == Password && !HasDigit(value) {
        msg := PasswordNeedsDigit;
      }
      assert msg == FieldError(field, value) by {
        match field
        case Name =>
        case Email =>
        case Password =>
        case Phone =>
        case Role =>
      }
      errors := errors[field := msg];
    }

    /** `update`: store the value, then validate that field. */
    method Update(field: Field, value: string)
      modifies this
      ensures payload == WithField(old(payload), field, value)
      ensures errors == old(errors)[field := FieldError(field, value)]
      ensures serverError == old(serverError) && busy == old(busy) && sent == old(sent)
    {
      payload := WithField(payload, field, value);
      ValidateField(field, value);
    }

    /** `submit` up to the request: an invalid form sets the server error
        and sends nothing; a valid one clears it, marks the form busy and
        posts the payload. */
    method Submit()
      modifies this
      ensures payload == old(payload) && errors == old(errors)
      ensures !FormValid(old(payload), old(errors)) ==>
        serverError == FixErrors && busy == old(busy) && sent == old(sent)
      ensures FormValid(old(payload), old(errors)) ==>
        serverError == "" && busy && sent == old(sent) + [old(payload)]
    {
      serverError := "";
      if !FormValid(payload, errors) {
        serverError := FixErrors;
        return;
      }
      busy := true;
      sent := sent + [payload];
    }
  }
}
