/**
 * The front end's input checks: the email pattern shared by the sign-up and
 * login pages, the sign-up password pattern, the reset page's password
 * policy, and the five requirements of the strength meter. The regular
 * expressions are restated as character-class predicates.
 */
module Validators {
  import opened Wrappers
  import Text

  /** `[^\s@]`. */
  predicate EmailChar(c: char) {
    !Text.IsSpace(c) && c != '@'
  }

  /**
   * `^[^\s@]+@[^\s@]+\.[^\s@]+$` read as a pattern: some '@' at `i` and '.'
   * at `j` split the input into three non-empty runs of email characters.
   */
  ghost predicate EmailPattern(s: string) {
    exists i, j :: 0 < i && i + 1 < j && j + 1 < |s| && s[i] == '@' && s[j] == '.'
      && (forall k :: 0 <= k < |s| && k != i ==> EmailChar(s[k]))
  }

  /**
   * `isValidEmail`, computed by splitting at the first '@': no whitespace,
   * a non-empty part before it, no second '@', and a '.' in the domain that
   * is neither its first nor its last character.
   */
  predicate IsValidEmail(s: string) {
    var i := Text.IndexOf(s, '@');
    && (forall k :: 0 <= k < |s| ==> !Text.IsSpace(s[k]))
    && 0 < i
    && Text.IndexOf(s[i + 1..], '@') == -1
    && HasInnerDot(s[i + 1..])
  }

  /** A '.' that is neither the first nor the last character. */
  predicate HasInnerDot(d: string) {
    exists j :: 0 < j < |d| - 1 && d[j] == '.'
  }

  /** The two readings agree on every input. */
  lemma EmailPatternIff(s: string)
    ensures EmailPattern(s) <==> IsValidEmail(s)
  {
    if EmailPattern(s) {
      PatternIsValid(s);
    }
    if IsValidEmail(s) {
      ValidIsPattern(s);
    }
  }

  lemma PatternIsValid(s: string)
    requires EmailPattern(s)
    ensures IsValidEmail(s)
  {
    var a, j :| 0 < a && a + 1 < j && j + 1 < |s| && s[a] == '@' && s[j] == '.'
      && (forall k :: 0 <= k < |s| && k != a ==> EmailChar(s[k]));
    Text.IndexOfAt(s, '@', a);
    PatternNoSpace(s, a);
    PatternDomain(s, a, j);
  }

  lemma PatternNoSpace(s: string, a: int)
    requires 0 <= a < |s| && s[a] == '@'
    requires forall k :: 0 <= k < |s| && k != a ==> EmailChar(s[k])
    ensures forall k :: 0 <= k < |s| ==> !Text.IsSpace(s[k])
  {
    assert !Text.IsSpace('@');
  }

  lemma PatternDomain(s: string, a: int, j: int)
    requires 0 <= a && a + 1 < j && j + 1 < |s| && s[j] == '.'
    requires forall k :: 0 <= k < |s| && k != a ==> EmailChar(s[k])
    ensures Text.IndexOf(s[a + 1..], '@') == -1
    ensures HasInnerDot(s[a + 1..])
  {
    var d := s[a + 1..];
    assert forall k :: 0 <= k < |d| ==> d[k] == s[a + 1 + k];
    assert d[j - a - 1] == '.';
  }

  lemma ValidIsPattern(s: string)
    requires IsValidEmail(s)
    ensures EmailPattern(s)
  {
    var i := Text.IndexOf(s, '@');
    var d := s[i + 1..];
    var j :| 0 < j < |d| - 1 && d[j] == '.';
    assert s[i + 1 + j] == '.';
    forall k | 0 <= k < |s| && k != i ensures EmailChar(s[k]) {
      if k > i {
        assert s[k] == d[k - i - 1];
      }
    }
  }

  /** `[A-Z]`, `[a-z]` and `[0-9]` (also `\d`) somewhere in the input. */
  predicate HasUpper(s: string) { exists k :: 0 <= k < |s| && Text.IsAsciiUpper(s[k]) }
  predicate HasLower(s: string) { exists k :: 0 <= k < |s| && Text.IsAsciiLower(s[k]) }
  predicate HasDigit(s: string) { exists k :: 0 <= k < |s| && Text.IsDigit(s[k]) }

  /** The meter's and the reset page's special characters: `!@#$%^&*(),.?":{}|<>`. */
  predicate MeterSpecial(c: char) {
    c == '!' || c == '@' || c == '#' || c == '$' || c == '%' || c == '^' || c == '&'
    || c == '*' || c == '(' || c == ')' || c == ',' || c == '.' || c == '?' || c == '\"'
    || c == ':' || c == '{' || c == '}' || c == '|' || c == '<' || c == '>'
  }

  /** The sign-up pattern's special characters: `!@#$%^&*()_+-=[]{};':"\|,.<>/?`. */
  predicate SignUpSpecial(c: char) {
    c == '!' || c == '@' || c == '#' || c == '$' || c == '%' || c == '^' || c == '&'
    || c == '*' || c == '(' || c == ')' || c == '_' || c == '+' || c == '-' || c == '='
    || c == '[' || c == ']' || c == '{' || c == '}' || c == ';' || c == '\'' || c == ':'
    || c == '\"' || c == '\\' || c == '|' || c == ',' || c == '.' || c == '<' || c == '>'
    || c == '/' || c == '?'
  }

  predicate HasMeterSpecial(s: string) { exists k :: 0 <= k < |s| && MeterSpecial(s[k]) }
  predicate HasSignUpSpecial(s: string) { exists k :: 0 <= k < |s| && SignUpSpecial(s[k]) }

  /** `.` does not match a line terminator, so `.{8,}$` refuses any input holding one. */
  predicate NoLineTerminator(s: string) {
    forall k :: 0 <= k < |s| ==> !Text.IsLineTerminator(s[k])
  }

  /** Sign-up's `isValidPassword`. */
  predicate IsValidPassword(s: string) {
    NoLineTerminator(s) && |s| >= 8 && HasLower(s) && HasUpper(s) && HasDigit(s) && HasSignUpSpecial(s)
  }

  /** The reset page's `isPasswordValid`. */
  predicate IsPasswordValid(s: string) {
    |s| >= 8 && HasUpper(s) && HasLower(s) && HasNumber(s) && HasMeterSpecial(s)
  }

  predicate HasNumber(s: string) { HasDigit(s) }

  /** The strength meter's requirements, in display order. */
  datatype Requirement = Length | Uppercase | Number | Lowercase | Special

  const Requirements: seq<Requirement> := [Length, Uppercase, Number, Lowercase, Special]

  predicate Passes(r: Requirement, pw: string) {
    match r
    case Length => |pw| >= 8
    case Uppercase => HasUpper(pw)
    case Number => HasDigit(pw)
    case Lowercase => HasLower(pw)
    case Special => HasMeterSpecial(pw)
  }

  function CountPassed(rs: seq<Requirement>, pw: string): (n: nat)
    ensures n <= |rs|
    ensures n == |rs| <==> forall i :: 0 <= i < |rs| ==> Passes(rs[i], pw)
  {
    if rs == [] then 0
    else (if Passes(rs[0], pw) then 1 else 0) + CountPassed(rs[1..], pw)
  }

  /** `passedCount`: between 0 and 5, and 5 exactly when every requirement passes. */
  function PassedCount(pw: string): (n: nat)
    ensures n <= 5
    ensures n == 5 <==> forall i :: 0 <= i < 5 ==> Passes(Requirements[i], pw)
  {
    CountPassed(Requirements, pw)
  }

  /** `min(floor(passedCount / 1.25), 4)`, in integers. */
  function StrengthLevel(count: nat): (level: nat)
    ensures level <= 4
    ensures level <= count
  {
    if 4 * count / 5 < 4 then 4 * count / 5 else 4
  }

  /** The levels for counts 0 to 5 are 0, 0, 1, 2, 3, 4: monotone, and 4 only at 5. */
  lemma StrengthLevelValues()
    ensures StrengthLevel(0) == 0 && StrengthLevel(1) == 0 && StrengthLevel(2) == 1
    ensures StrengthLevel(3) == 2 && StrengthLevel(4) == 3 && StrengthLevel(5) == 4
  {
  }

  lemma StrengthMonotone(a: nat, b: nat)
    requires a <= b
    ensures StrengthLevel(a) <= StrengthLevel(b)
  {
  }

  /** Passing every requirement is the reset policy, and is what fills the meter. */
  lemma PolicyIsAllRequirements(pw: string)
    ensures IsPasswordValid(pw) <==> PassedCount(pw) == 5
    ensures PassedCount(pw) == 5 <==> StrengthLevel(PassedCount(pw)) == 4
  {
    assert Requirements[0] == Length && Requirements[1] == Uppercase && Requirements[2] == Number;
    assert Requirements[3] == Lowercase && Requirements[4] == Special;
  }

  /** The meter: four segments, the first `level` active, and `complete` at level 4. */
  datatype Meter = Meter(segments: seq<bool>, complete: bool, passed: seq<bool>)

  function CountTrue(bs: seq<bool>): (n: nat)
    ensures n <= |bs|
  {
    if bs == [] then 0 else (if bs[0] then 1 else 0) + CountTrue(bs[1..])
  }

  /** The meter for a password; nothing is shown for an empty one. */
  function Render(pw: string): (m: Option<Meter>)
    ensures m.None? <==> pw == ""
    ensures m.Some? ==> (
      && |m.value.segments| == 4 && |m.value.passed| == 5
      && (forall i :: 0 <= i < 4 ==> (m.value.segments[i] <==> i < StrengthLevel(PassedCount(pw))))
      && (forall i :: 0 <= i < 5 ==> (m.value.passed[i] <==> Passes(Requirements[i], pw)))
      && (m.value.complete <==> PassedCount(pw) == 5))
  {
    if pw == "" then None
    else
      var level := StrengthLevel(PassedCount(pw));
      PolicyIsAllRequirements(pw);
      Some(Meter(seq(4, i => i < level), level == 4, seq(5, i requires 0 <= i < 5 => Passes(Requirements[i], pw))))
  }

  /** Exactly `level` segments are active. */
  lemma {:induction false} ActiveSegmentsCount(level: nat)
    requires level <= 4
    ensures CountTrue(seq(4, i => i < level)) == level
  {
    var s := seq(4, i => i < level);
    assert s == [0 < level, 1 < level, 2 < level, 3 < level];
    assert CountTrue(s[3..]) == (if 3 < level then 1 else 0);
    assert CountTrue(s[2..]) == (if 2 < level then 1 else 0) + CountTrue(s[3..]);
    assert CountTrue(s[1..]) == (if 1 < level then 1 else 0) + CountTrue(s[2..]);
  }

  /** Without line terminators, whatever the reset policy accepts, sign-up accepts too. */
  lemma ResetPolicyImpliesSignUp(pw: string)
    requires NoLineTerminator(pw) && IsPasswordValid(pw)
    ensures IsValidPassword(pw)
  {
    var k :| 0 <= k < |pw| && MeterSpecial(pw[k]);
    assert SignUpSpecial(pw[k]);
  }

  /** The converse fails: an underscore is special only for sign-up. */
  lemma SignUpDoesNotImplyReset()
    ensures IsValidPassword("Aa1_aaaa") && !IsPasswordValid("Aa1_aaaa")
  {
    var p := "Aa1_aaaa";
    assert Text.IsAsciiLower(p[1]) && Text.IsAsciiUpper(p[0]) && Text.IsDigit(p[2]);
    assert SignUpSpecial(p[3]);
    forall k | 0 <= k < |p| ensures !MeterSpecial(p[k]) && !Text.IsLineTerminator(p[k]) {
      assert p[k] == 'A' || p[k] == 'a' || p[k] == '1' || p[k] == '_';
    }
  }

  /** And the line-terminator hypothesis is needed: a trailing newline passes the reset policy only. */
  lemma LineTerminatorSplitsPolicies()
    ensures IsPasswordValid("Aa1!aaa\n") && !IsValidPassword("Aa1!aaa\n")
  {
    var p := "Aa1!aaa\n";
    assert Text.IsAsciiLower(p[1]) && Text.IsAsciiUpper(p[0]) && Text.IsDigit(p[2]) && MeterSpecial(p[3]);
    assert Text.IsLineTerminator(p[7]);
  }
}
