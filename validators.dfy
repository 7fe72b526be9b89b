/** The input checks the controllers share: the e-mail and Indian-mobile patterns, the
    password length rule, and the closed value sets for statuses, priorities, modes and roles. */
module Validators {
  import opened Wrappers

  // ---------------------------------------------------------------------------
  // Character classes

  /** JavaScript's `\s`: the WhiteSpace and LineTerminator code points of ECMAScript. */
  predicate IsSpace(c: char) {
    || c == ' ' || c == '\t' || c == '\n' || c == '\r' || c == '\U{000B}' || c == '\U{000C}'
    || c == '\U{00A0}' || c == '\U{1680}' || ('\U{2000}' <= c <= '\U{200A}')
    || c == '\U{2028}' || c == '\U{2029}' || c == '\U{202F}' || c == '\U{205F}'
    || c == '\U{3000}' || c == '\U{FEFF}'
  }

  /** The class `[^\s@]`. */
  predicate Plain(c: char) { !IsSpace(c) && c != '@' }

  predicate AllPlain(s: string) { forall i :: 0 <= i < |s| ==> Plain(s[i]) }

  /** The class `\d` (ASCII digits only, as in JavaScript without the `u` flag). */
  predicate IsDigit(c: char) { '0' <= c <= '9' }

  // ---------------------------------------------------------------------------
  // Lengths in UTF-16 code units

  /** The code units JavaScript stores for `c`: a surrogate pair outside the Basic
      Multilingual Plane, one unit inside it. */
  function Units(c: char): (n: nat)
    ensures 1 <= n <= 2
  {
    if c as int >= 0x1_0000 then 2 else 1
  }

  /** JavaScript's `s.length`, and the count a quantifier such as `{2,}` applies to when the
      pattern has no `u` flag. */
  function JsLength(s: string): (n: nat)
    ensures |s| <= n <= 2 * |s|
  {
    if s == [] then 0 else Units(s[0]) + JsLength(s[1..])
  }

  // ---------------------------------------------------------------------------
  // E-mail: /^[^\s@]+@[^\s@]+\.[^\s@]{2,}$/

  /** The pattern read literally: some split `local @ domain . tld` with a non-empty local
      part, a non-empty domain, a top-level part of at least two code units, and none of the
      three holding whitespace or '@'. */
  ghost predicate EmailPattern(s: string) {
    exists at: nat, dot: nat :: SplitsAt(s, at, dot)
  }

  /** `s` splits as the pattern demands with its '@' at `at` and its '.' at `dot`. */
  predicate SplitsAt(s: string, at: nat, dot: nat) {
    && 0 < at && at + 1 < dot && dot < |s| && JsLength(s[dot + 1..]) >= 2
    && s[at] == '@' && s[dot] == '.'
    && AllPlain(s[..at]) && AllPlain(s[at + 1..dot]) && AllPlain(s[dot + 1..])
  }

  function IndexOf(s: string, c: char): (r: Option<nat>)
    ensures r.Some? ==> r.value < |s| && s[r.value] == c
    ensures r.Some? ==> forall k :: 0 <= k < r.value ==> s[k] != c
    ensures r.None? ==> forall k :: 0 <= k < |s| ==> s[k] != c
  {
    if s == [] then None
    else if s[0] == c then Some(0)
    else match IndexOf(s[1..], c)
      case None => None
      case Some(k) => Some(k + 1)
  }

  /** The first '.' at a position in [lo, hi). */
  function DotIn(s: string, lo: nat, hi: nat): (r: Option<nat>)
    requires hi <= |s|
    ensures r.Some? ==> lo <= r.value < hi && s[r.value] == '.'
    ensures r.None? ==> forall k :: lo <= k < hi ==> s[k] != '.'
    decreases hi - lo
  {
    if lo >= hi then None
    else if s[lo] == '.' then Some(lo)
    else DotIn(s, lo + 1, hi)
  }

  /** Where a '.' may sit and still leave two code units after it: before the last two
      characters, or before the last one when that one is a surrogate pair. */
  function TldLimit(s: string): (hi: nat)
    requires |s| >= 2
    ensures hi <= |s|
  {
    if Units(s[|s| - 1]) == 2 then |s| - 1 else |s| - 2
  }

  /** A '.' at `dot` leaves at least two code units after it exactly below the limit. */
  lemma TldRoom(s: string, dot: nat)
    requires |s| >= 2 && dot < |s|
    ensures JsLength(s[dot + 1..]) >= 2 <==> dot < TldLimit(s)
  {
    if dot == |s| - 2 {
      assert s[dot + 1..] == [s[|s| - 1]];
      assert JsLength(s[dot + 1..]) == Units(s[|s| - 1]) + JsLength([]);
    } else if dot == |s| - 1 {
      assert s[dot + 1..] == [];
    }
  }

  /** The test the handlers run: the first '@' closes a non-empty local part, everything after
      it is free of whitespace and '@', and a '.' sits with at least one character before it
      (after the '@') and at least two code units after it. */
  predicate IsEmail(s: string) {
    match IndexOf(s, '@')
    case None => false
    case Some(at) =>
      && 0 < at && |s| >= 2 && AllPlain(s[..at]) && AllPlain(s[at + 1..])
      && DotIn(s, at + 2, TldLimit(s)).Some?
  }

  lemma AllPlainSlice(u: string, a: nat, b: nat)
    requires AllPlain(u) && a <= b <= |u|
    ensures AllPlain(u[a..b])
  {
    assert forall i :: 0 <= i < b - a ==> u[a..b][i] == u[a + i];
  }

  lemma AllPlainJoin(x: string, c: char, y: string)
    requires AllPlain(x) && Plain(c) && AllPlain(y)
    ensures AllPlain(x + [c] + y)
  {
    var z := x + [c] + y;
    assert forall i :: 0 <= i < |x| ==> z[i] == x[i];
    assert forall i :: |x| < i < |z| ==> z[i] == y[i - |x| - 1];
  }

  /** Whatever the scan accepts splits as the pattern demands. */
  lemma EmailScanSound(s: string)
    requires IsEmail(s)
    ensures EmailPattern(s)
  {
    var at := IndexOf(s, '@').value;
    var dot := DotIn(s, at + 2, TldLimit(s)).value;
    TldRoom(s, dot);
    var tail := s[at + 1..];
    AllPlainSlice(tail, 0, dot - at - 1);
    assert s[at + 1..dot] == tail[0..dot - at - 1];
    AllPlainSlice(tail, dot - at, |tail|);
    assert s[dot + 1..] == tail[dot - at..|tail|];
    assert s[at] == '@' && s[dot] == '.';
    assert AllPlain(s[..at]) && AllPlain(s[at + 1..dot]) && AllPlain(s[dot + 1..]);
    assert SplitsAt(s, at, dot);
  }

  /** Whatever splits as the pattern demands passes the scan. */
  lemma EmailScanComplete(s: string)
    requires EmailPattern(s)
    ensures IsEmail(s)
  {
    var at: nat, dot: nat :| SplitsAt(s, at, dot);
    SplitPasses(s, at, dot);
  }

  /** One split the pattern allows makes the scan succeed. */
  lemma SplitPasses(s: string, at: nat, dot: nat)
    requires SplitsAt(s, at, dot)
    ensures IsEmail(s)
  {
    FirstAt(s, at);
    TailPlain(s, at, dot);
    TldRoom(s, dot);
    DotFound(s, at + 2, TldLimit(s), dot);
  }

  lemma TailPlain(s: string, at: nat, dot: nat)
    requires at < dot < |s| && s[dot] == '.'
    requires AllPlain(s[at + 1..dot]) && AllPlain(s[dot + 1..])
    ensures AllPlain(s[at + 1..])
  {
    assert s[at + 1..] == s[at + 1..dot] + [s[dot]] + s[dot + 1..];
    AllPlainJoin(s[at + 1..dot], s[dot], s[dot + 1..]);
  }

  lemma DotFound(s: string, lo: nat, hi: nat, k: nat)
    requires hi <= |s| && lo <= k < hi && s[k] == '.'
    ensures DotIn(s, lo, hi).Some?
  {
  }

  /** An '@' preceded only by plain characters is the first '@'. */
  lemma FirstAt(s: string, at: nat)
    requires at < |s| && s[at] == '@' && AllPlain(s[..at])
    ensures IndexOf(s, '@') == Some(at)
  {
    assert forall k :: 0 <= k < at ==> s[..at][k] == s[k];
    var r := IndexOf(s, '@');
    assert r.Some? by { assert s[at] == '@'; }
  }

  /** The scan accepts exactly the strings the regular expression matches. */
  lemma EmailMatchesPattern(s: string)
    ensures IsEmail(s) <==> EmailPattern(s)
  {
    if IsEmail(s) { EmailScanSound(s); }
    if EmailPattern(s) { EmailScanComplete(s); }
  }

  // ---------------------------------------------------------------------------
  // Phone: /^[6-9]\d{9}$/

  function AllDigits(s: string): (r: bool)
    ensures r <==> forall i :: 0 <= i < |s| ==> IsDigit(s[i])
  {
    if s == [] then true else IsDigit(s[0]) && AllDigits(s[1..])
  }

  predicate IsPhone(s: string) {
    |s| == 10 && '6' <= s[0] <= '9' && AllDigits(s[1..])
  }

  /** Exactly ten decimal digits, the first of them 6, 7, 8 or 9. */
  lemma PhoneShape(s: string)
    ensures IsPhone(s) <==>
      |s| == 10 && s[0] in {'6', '7', '8', '9'} && forall i :: 0 <= i < 10 ==> IsDigit(s[i])
  {
    if |s| == 10 {
      assert forall i :: 1 <= i < 10 ==> s[1..][i - 1] == s[i];
    }
  }

  // ---------------------------------------------------------------------------
  // Passwords

  const MIN_PASSWORD_LENGTH: nat := 6

  /** `password.length < 6` rejects; the length counts UTF-16 code units. */
  predicate LongEnough(password: string) { JsLength(password) >= MIN_PASSWORD_LENGTH }

  /** Three characters outside the Basic Multilingual Plane are six code units: a long
      enough password, and a long enough top-level part after a single one of them. */
  lemma SurrogatePairsCount()
    ensures |"\U{1F600}\U{1F600}\U{1F600}"| == 3 && LongEnough("\U{1F600}\U{1F600}\U{1F600}")
    ensures IsEmail("a@b.\U{1F600}")
  {
    var p := "\U{1F600}\U{1F600}\U{1F600}";
    assert JsLength(p) == 2 + JsLength(p[1..]);
    assert JsLength(p[1..]) == 2 + JsLength(p[2..]);
    var e := "a@b.\U{1F600}";
    assert AllPlain(e[..1]) && AllPlain(e[2..]) && AllPlain(e[4..]);
    assert e[2..3] == "b";
    SplitPasses(e, 1, 3);
  }

  // ---------------------------------------------------------------------------
  // Closed value sets (`validX.includes(x)`)

  const COURSE_ENQUIRY_STATUSES: seq<string> :=
    ["pending", "in-progress", "closedAndWon", "closedAndLost", "closeWithOutReason"]
  const GENERAL_ENQUIRY_STATUSES: seq<string> := ["pending", "in-progress", "resolved", "closed"]
  const PRIORITIES: seq<string> := ["low", "medium", "high"]
  const FOLLOW_UP_MODES: seq<string> := ["call", "onlineMeeting", "physicalMeeting"]
  /** The user schema's role enumeration. */
  const USER_ROLES: seq<string> := ["student", "corporate", "admin", "childAdmin", "institute"]

  // ---------------------------------------------------------------------------
  // String helpers

  /** ASCII lower-casing (`toLowerCase` restricted to A-Z). */
  function ToLower(s: string): (r: string)
    ensures |r| == |s|
    ensures forall i :: 0 <= i < |s| ==>
      r[i] == if 'A' <= s[i] <= 'Z' then (s[i] as int + 32) as char else s[i]
  {
    if s == [] then []
    else [if 'A' <= s[0] <= 'Z' then (s[0] as int + 32) as char else s[0]] + ToLower(s[1..])
  }

  /** `xs.join(sep)`. */
  function Join(xs: seq<string>, sep: string): string
  {
    if xs == [] then "" else if |xs| == 1 then xs[0] else xs[0] + sep + Join(xs[1..], sep)
  }

  /** `xs.filter(x => !IsEmail(x))`, order kept. */
  function Invalid(xs: seq<string>): (r: seq<string>)
    ensures forall x :: x in r <==> x in xs && !IsEmail(x)
    ensures r == [] <==> forall i :: 0 <= i < |xs| ==> IsEmail(xs[i])
  {
    if xs == [] then []
    else (if IsEmail(xs[0]) then [] else [xs[0]]) + Invalid(xs[1..])
  }
}
