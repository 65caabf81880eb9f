/** The per-field validation rules of the booking form (`validationRules` and
    `validateField` in js/app.js). Each rule is a predicate on the field's
    current text. The two regular expressions are given twice: once as the
    validator, once as a reference definition that follows the shape of the
    pattern, and lemmas show the two agree and match a plain-language
    description of the accepted strings. */
module Validation {
  import opened Wrappers
  import opened Text

  // ---------------------------------------------------------------------------
  // fullName: value.trim().length >= 2
  // ---------------------------------------------------------------------------

  predicate ValidName(value: string) {
    |Trim(value)| >= 2
  }

  /** The text holds two non-whitespace characters at different positions. */
  ghost predicate HasTwoNonSpace(value: string) {
    exists i, j :: 0 <= i < j < |value| && !IsSpace(value[i]) && !IsSpace(value[j])
  }

  /** A name passes exactly when at least two of its characters are not
      whitespace; inner spaces count toward the trimmed length. */
  lemma NameCharacterisation(value: string)
    ensures ValidName(value) <==> HasTwoNonSpace(value)
  {
    if ValidName(value) {
      TrimBounds(value);
      var a, t := LeadingSpace(value), TrailingSpace(value);
      var r := Trim(value);
      assert value[a] == r[0] && value[|value| - t - 1] == r[|r| - 1];
      assert a < |value| - t - 1;
    }
    if HasTwoNonSpace(value) {
      var i, j :| 0 <= i < j < |value| && !IsSpace(value[i]) && !IsSpace(value[j]);
      TrimBounds(value);
      var a, t := LeadingSpace(value), TrailingSpace(value);
      assert a <= i && j < |value| - t;
    }
  }

  // ---------------------------------------------------------------------------
  // email: /^[^\s@]+@[^\s@]+\.[^\s@]+$/
  // ---------------------------------------------------------------------------

  /** The class `[^\s@]`. */
  predicate Plain(c: char) {
    !IsSpace(c) && c != '@'
  }

  predicate AllPlain(s: string) {
    forall i :: 0 <= i < |s| ==> Plain(s[i])
  }

  /** Some `.` has at least one character on each side. */
  predicate HasInnerDot(d: string) {
    exists k :: 0 < k < |d| - 1 && d[k] == '.'
  }

  /** The pattern read structurally: three non-empty runs of `[^\s@]`,
      separated by `@` and `.`, covering the whole string. */
  ghost predicate EmailPattern(s: string) {
    exists at, dot ::
      && 0 < at && at + 1 < dot && dot + 1 < |s|
      && s[at] == '@' && s[dot] == '.'
      && AllPlain(s[..at]) && AllPlain(s[at + 1..dot]) && AllPlain(s[dot + 1..])
  }

  /** The email validator: split at the first `@`, then check both sides. */
  predicate ValidEmail(s: string) {
    match IndexOf(s, '@')
    case None => false
    case Some(at) =>
      && 0 < at
      && AllPlain(s[..at])
      && AllPlain(s[at + 1..])
      && HasInnerDot(s[at + 1..])
  }

  /** The address described in words: no whitespace, exactly one `@`, a
      non-empty part before it, and a `.` after it with a character on each
      side. */
  ghost predicate EmailShape(s: string) {
    && (forall i :: 0 <= i < |s| ==> !IsSpace(s[i]))
    && Count(s, '@') == 1
    && exists at :: 0 < at < |s| && s[at] == '@' && HasInnerDot(s[at + 1..])
  }

  lemma AllPlainConcat(a: string, b: string)
    ensures AllPlain(a + b) <==> AllPlain(a) && AllPlain(b)
  {
    if AllPlain(a + b) {
      assert forall i :: 0 <= i < |a| ==> a[i] == (a + b)[i];
      assert forall i :: 0 <= i < |b| ==> b[i] == (a + b)[|a| + i];
    }
  }

  /** Visible ASCII other than `@` is in the class `[^\s@]`. */
  lemma PrintablePlain(s: string)
    requires forall k :: 0 <= k < |s| ==> '!' <= s[k] <= '~' && s[k] != '@'
    ensures AllPlain(s)
  {
  }

  lemma ValidEmailHasPattern(s: string)
    requires ValidEmail(s)
    ensures EmailPattern(s)
  {
    var at := IndexOf(s, '@').value;
    var d := s[at + 1..];
    var k :| 0 < k < |d| - 1 && d[k] == '.';
    var dot := at + 1 + k;
    assert d == d[..k] + [d[k]] + d[k + 1..];
    AllPlainConcat(d[..k] + [d[k]], d[k + 1..]);
    AllPlainConcat(d[..k], [d[k]]);
    assert s[at + 1..dot] == d[..k];
    assert s[dot + 1..] == d[k + 1..];
    assert s[dot] == '.';
  }

  lemma PatternIsValidEmail(s: string, at: nat, dot: nat)
    requires 0 < at && at + 1 < dot && dot + 1 < |s|
    requires s[at] == '@' && s[dot] == '.'
    requires AllPlain(s[..at]) && AllPlain(s[at + 1..dot]) && AllPlain(s[dot + 1..])
    ensures ValidEmail(s)
  {
    assert forall j :: 0 <= j < at ==> s[j] == s[..at][j];
    IndexOfUnique(s, '@', at);
    var d := s[at + 1..];
    assert d == s[at + 1..dot] + [s[dot]] + s[dot + 1..];
    AllPlainConcat(s[at + 1..dot] + [s[dot]], s[dot + 1..]);
    AllPlainConcat(s[at + 1..dot], [s[dot]]);
    assert d[dot - at - 1] == '.';
  }

  lemma EmailMatchesPattern(s: string)
    ensures ValidEmail(s) <==> EmailPattern(s)
  {
    if ValidEmail(s) {
      ValidEmailHasPattern(s);
    }
    if EmailPattern(s) {
      var at, dot :|
        && 0 < at && at + 1 < dot && dot + 1 < |s|
        && s[at] == '@' && s[dot] == '.'
        && AllPlain(s[..at]) && AllPlain(s[at + 1..dot]) && AllPlain(s[dot + 1..]);
      PatternIsValidEmail(s, at, dot);
    }
  }

  /** Splits the `@` count of `s` around position `at`. */
  lemma CountAround(s: string, at: nat, c: char)
    requires at < |s| && s[at] == c
    ensures Count(s, c) == Count(s[..at], c) + 1 + Count(s[at + 1..], c)
  {
    assert s == s[..at] + [s[at]] + s[at + 1..];
    CountAppend(s[..at] + [s[at]], s[at + 1..], c);
    CountAppend(s[..at], [s[at]], c);
  }

  lemma ValidEmailShape(s: string)
    requires ValidEmail(s)
    ensures EmailShape(s)
  {
    var at := IndexOf(s, '@').value;
    var d := s[at + 1..];
    forall i | 0 <= i < |s| ensures !IsSpace(s[i]) {
      if i < at { assert s[i] == s[..at][i]; }
      else if i > at { assert s[i] == d[i - at - 1]; }
    }
    CountAround(s, at, '@');
    CountZero(s[..at], '@');
    CountZero(d, '@');
  }

  lemma ShapeIsValidEmail(s: string, at: nat)
    requires forall i :: 0 <= i < |s| ==> !IsSpace(s[i])
    requires Count(s, '@') == 1
    requires 0 < at < |s| && s[at] == '@' && HasInnerDot(s[at + 1..])
    ensures ValidEmail(s)
  {
    var d := s[at + 1..];
    CountAround(s, at, '@');
    CountZero(s[..at], '@');
    CountZero(d, '@');
    assert forall j :: 0 <= j < at ==> s[j] == s[..at][j];
    IndexOfUnique(s, '@', at);
    assert forall j :: 0 <= j < |d| ==> d[j] == s[at + 1 + j];
    assert AllPlain(d);
    assert AllPlain(s[..at]);
  }

  lemma EmailCharacterisation(s: string)
    ensures ValidEmail(s) <==> EmailShape(s)
  {
    if ValidEmail(s) {
      ValidEmailShape(s);
    }
    if EmailShape(s) {
      var at :| 0 < at < |s| && s[at] == '@' && HasInnerDot(s[at + 1..]);
      ShapeIsValidEmail(s, at);
    }
  }

  // ---------------------------------------------------------------------------
  // phone: /^[\d\-\s\+\(\)]{10,}$/
  // ---------------------------------------------------------------------------

  /** The class `[\d\-\s\+\(\)]`. */
  predicate PhoneChar(c: char) {
    IsDigit(c) || c == '-' || IsSpace(c) || c == '+' || c == '(' || c == ')'
  }

  predicate AllPhoneChars(s: string) {
    forall i :: 0 <= i < |s| ==> PhoneChar(s[i])
  }

  /** The bounded repetition `[...]{n,}` anchored at both ends, consumed one
      character at a time: `n` more copies are still required. */
  ghost predicate PhoneRepeat(s: string, n: nat)
    decreases |s|
  {
    if |s| == 0 then n == 0
    else PhoneChar(s[0]) && PhoneRepeat(s[1..], if n == 0 then 0 else n - 1)
  }

  ghost predicate PhonePattern(s: string) {
    PhoneRepeat(s, 10)
  }

  /** The phone validator: ten or more characters, all from the class. */
  predicate ValidPhone(s: string) {
    |s| >= 10 && AllPhoneChars(s)
  }

  lemma {:induction false} PhoneRepeatCharacterisation(s: string, n: nat)
    ensures PhoneRepeat(s, n) <==> |s| >= n && AllPhoneChars(s)
    decreases |s|
  {
    if |s| > 0 {
      PhoneRepeatCharacterisation(s[1..], if n == 0 then 0 else n - 1);
      assert AllPhoneChars(s) <==> PhoneChar(s[0]) && AllPhoneChars(s[1..]) by {
        if PhoneChar(s[0]) && AllPhoneChars(s[1..]) {
          forall i | 0 <= i < |s| ensures PhoneChar(s[i]) {
            if i > 0 { assert s[i] == s[1..][i - 1]; }
          }
        }
      }
    }
  }

  lemma PhoneMatchesPattern(s: string)
    ensures ValidPhone(s) <==> PhonePattern(s)
  {
    PhoneRepeatCharacterisation(s, 10);
  }

  // ---------------------------------------------------------------------------
  // date and time: value !== ''
  // ---------------------------------------------------------------------------

  predicate Filled(value: string) {
    value != ""
  }

  // ---------------------------------------------------------------------------
  // the rule table and validateField
  // ---------------------------------------------------------------------------

  datatype Rule = Name | Email | Phone | Date | Time

  /** The field ids that have an entry in the rule table. */
  const RuleIds: set<string> := {"fullName", "email", "phone", "date", "time"}

  /** `validationRules[fieldId]`: the rule registered under a field id. */
  function RuleFor(fieldId: string): (r: Option<Rule>)
    ensures r.Some? <==> fieldId in RuleIds
  {
    if fieldId == "fullName" then Some(Name)
    else if fieldId == "email" then Some(Email)
    else if fieldId == "phone" then Some(Phone)
    else if fieldId == "date" then Some(Date)
    else if fieldId == "time" then Some(Time)
    else None
  }

  /** `rule.validate(value)`. */
  predicate Check(rule: Rule, value: string) {
    match rule
    case Name => ValidName(value)
    case Email => ValidEmail(value)
    case Phone => ValidPhone(value)
    case Date => Filled(value)
    case Time => Filled(value)
  }

  /** `validateField`: the field's rule applied to its current text, or true
      when the id has no rule. */
  function ValidateField(fieldId: string, value: string): (ok: bool)
    ensures fieldId !in RuleIds ==> ok
    ensures fieldId == "fullName" ==> (ok <==> HasTwoNonSpace(value))
    ensures fieldId == "email" ==> (ok <==> EmailPattern(value))
    ensures fieldId == "email" ==> (ok <==> EmailShape(value))
    ensures fieldId == "phone" ==> (ok <==> PhonePattern(value))
    ensures fieldId == "date" || fieldId == "time" ==> (ok <==> value != "")
  {
    NameCharacterisation(value);
    EmailMatchesPattern(value);
    EmailCharacterisation(value);
    PhoneMatchesPattern(value);
    match RuleFor(fieldId)
    case None => true
    case Some(rule) => Check(rule, value)
  }
}
