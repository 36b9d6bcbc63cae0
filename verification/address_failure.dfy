/**
 Recognition of the two free-text failure messages the platform returns for a
 rejected receiver (CleverReachClient.createInvalidEmailInfo). The two Java
 patterns are

   invalid:    .*invalid address *'(.*)'.*
   duplicate:  .*duplicate address *'(.*).*'

 matched against the whole message with `Matcher.matches()`. They are modelled
 by hand rather than through a general regular-expression engine:

 - `.` matches no line terminator, so a message containing one never matches;
 - the leading greedy `.*` makes the matcher settle on the LAST occurrence of
   the keyword from which the rest of the pattern can still match;
 - ` *` must consume every space up to the opening quote;
 - the greedy group then runs up to the last quote of the message (for the
   duplicate pattern that quote must be the message's final character).

 The error message of a match is the whole matched text, i.e. the message.
 */
module AddressFailure {
  import opened Model

  /** `InvalidEmail`: the address the platform complained about and its message. */
  datatype InvalidEmail = InvalidEmail(email: string, errorMessage: string)

  datatype Shape = InvalidAddress | DuplicateAddress

  function Keyword(shape: Shape): string
  {
    match shape
    case InvalidAddress => "invalid address"
    case DuplicateAddress => "duplicate address"
  }

  /** The characters Java's `.` does not match outside DOTALL mode. */
  predicate IsLineTerminator(c: char)
  {
    c == '\n' || c == '\r' || c == '\U{85}' || c == '\U{2028}' || c == '\U{2029}'
  }

  predicate SingleLine(s: string)
  {
    forall i :: 0 <= i < |s| ==> !IsLineTerminator(s[i])
  }

  /** The first position at or after `i` that does not hold a space. */
  function SkipSpaces(s: string, i: nat): (k: nat)
    requires i <= |s|
    ensures i <= k <= |s|
    ensures forall j :: i <= j < k ==> s[j] == ' '
    ensures k < |s| ==> s[k] != ' '
    decreases |s| - i
  {
    if i < |s| && s[i] == ' ' then SkipSpaces(s, i + 1) else i
  }

  /** The position of the last quote of `s`, if any. */
  function LastQuote(s: string): (r: Option<nat>)
    ensures r.Some? ==> r.value < |s| && s[r.value] == '\'' && forall j :: r.value < j < |s| ==> s[j] != '\''
    ensures r.None? ==> forall j :: 0 <= j < |s| ==> s[j] != '\''
  {
    if s == [] then None
    else if s[|s| - 1] == '\'' then Some(|s| - 1)
    else LastQuote(s[..|s| - 1])
  }

  /** Where the opening quote stands when the keyword of `shape` starts at `p`
      and is followed by spaces and a quote. */
  function OpeningQuote(shape: Shape, s: string, p: nat): Option<nat>
  {
    var w := Keyword(shape);
    if p + |w| <= |s| && s[p..p + |w|] == w then
      var k := SkipSpaces(s, p + |w|);
      if k < |s| && s[k] == '\'' then Some(k) else None
    else None
  }

  /** Whether the rest of the pattern matches after the opening quote at `k`. */
  predicate Closes(shape: Shape, s: string, k: nat)
  {
    match shape
    case InvalidAddress => LastQuote(s).Some? && k < LastQuote(s).value
    case DuplicateAddress => k + 1 < |s| && s[|s| - 1] == '\''
  }

  /** The whole message matches `shape` with the keyword starting at `p`. */
  predicate MatchesAt(shape: Shape, s: string, p: nat)
  {
    && SingleLine(s)
    && OpeningQuote(shape, s, p).Some?
    && Closes(shape, s, OpeningQuote(shape, s, p).value)
  }

  /** The text captured by group 1 when the keyword starts at `p`. */
  function Captured(shape: Shape, s: string, p: nat): string
    requires MatchesAt(shape, s, p)
  {
    var k := OpeningQuote(shape, s, p).value;
    match shape
    case InvalidAddress => s[k + 1..LastQuote(s).value]
    case DuplicateAddress => s[k + 1..|s| - 1]
  }

  ghost predicate Matches(shape: Shape, s: string)
  {
    exists p: nat :: p <= |s| && MatchesAt(shape, s, p)
  }

  /** `addr` is what java.util.regex captures: the keyword occurrence chosen is
      the last one from which the whole message matches. */
  ghost predicate Extracts(shape: Shape, s: string, addr: string)
  {
    exists p: nat :: p <= |s| && MatchesAt(shape, s, p)
      && (forall q: nat :: p < q <= |s| ==> !MatchesAt(shape, s, q))
      && addr == Captured(shape, s, p)
  }

  /** The last keyword position at or before `p` from which the message matches. */
  function LastMatch(shape: Shape, s: string, p: nat): (r: Option<nat>)
    requires p <= |s|
    ensures r.Some? ==> r.value <= p && MatchesAt(shape, s, r.value)
    ensures r.Some? ==> forall q: nat :: r.value < q <= p ==> !MatchesAt(shape, s, q)
    ensures r.None? ==> forall q: nat :: q <= p ==> !MatchesAt(shape, s, q)
    decreases p
  {
    if MatchesAt(shape, s, p) then Some(p)
    else if p == 0 then None
    else LastMatch(shape, s, p - 1)
  }

  /** `createInvalidEmailInfo(Pattern, String)` for one of the two patterns. */
  function MatchShape(shape: Shape, s: string): (r: Option<InvalidEmail>)
    ensures r.Some? <==> Matches(shape, s)
    ensures r.Some? ==> r.value.errorMessage == s && Extracts(shape, s, r.value.email)
  {
    match LastMatch(shape, s, |s|)
    case None => None
    case Some(p) => Some(InvalidEmail(Captured(shape, s, p), s))
  }

  /** `createInvalidEmailInfo(String)`: the invalid-address pattern is tried
      first, the duplicate-address pattern only when it fails. */
  function CreateInvalidEmailInfo(s: string): (r: Option<InvalidEmail>)
    ensures r.Some? ==> r.value.errorMessage == s
    ensures Matches(InvalidAddress, s) ==> r.Some? && Extracts(InvalidAddress, s, r.value.email)
    ensures (!Matches(InvalidAddress, s) && Matches(DuplicateAddress, s))
            ==> r.Some? && Extracts(DuplicateAddress, s, r.value.email)
    ensures r.None? <==> !Matches(InvalidAddress, s) && !Matches(DuplicateAddress, s)
  {
    var invalid := MatchShape(InvalidAddress, s);
    if invalid.Some? then invalid else MatchShape(DuplicateAddress, s)
  }

  /** A message spanning several lines is never recognised. */
  lemma MultiLineNeverRecognised(s: string)
    requires !SingleLine(s)
    ensures CreateInvalidEmailInfo(s) == None
  {
  }

  /** The message `invalid address '<a>'` yields address `a`, provided `a`
      holds no quote and no line terminator. */
  lemma {:induction false} InvalidAddressRoundTrip(a: string, s: string)
    requires SingleLine(a) && forall i :: 0 <= i < |a| ==> a[i] != '\''
    requires s == "invalid address '" + a + "'"
    ensures CreateInvalidEmailInfo(s) == Some(InvalidEmail(a, s))
  {
    var n := |s|;
    assert s[..15] == "invalid address";
    assert s[15] == ' ' && s[16] == '\'' && s[n - 1] == '\'';
    assert forall i :: 17 <= i < n - 1 ==> s[i] == a[i - 17];
    assert SingleLine(s);
    assert SkipSpaces(s, 15) == 16;
    assert LastQuote(s) == Some(n - 1);
    assert OpeningQuote(InvalidAddress, s, 0) == Some(16);
    assert MatchesAt(InvalidAddress, s, 0);
    forall q: nat | 0 < q <= n ensures !MatchesAt(InvalidAddress, s, q) {
      var o := OpeningQuote(InvalidAddress, s, q);
      if o.Some? {
        assert o.value >= q + 15 && s[o.value] == '\'';
        assert o.value == n - 1;
      }
    }
    assert LastMatch(InvalidAddress, s, n) == Some(0);
    assert s[17..n - 1] == a;
  }

  lemma DuplicateIsNotInvalid(a: string, s: string)
    requires forall i :: 0 <= i < |a| ==> a[i] != '\''
    requires s == "duplicate address '" + a + "'"
    ensures !Matches(InvalidAddress, s)
  {
    var n := |s|;
    assert s[..4] == "dupl";
    assert forall i :: 19 <= i < n - 1 ==> s[i] == a[i - 19];
    forall p: nat | p <= n ensures !MatchesAt(InvalidAddress, s, p) {
      var o := OpeningQuote(InvalidAddress, s, p);
      if o.Some? {
        assert s[p..p + 15] == "invalid address";
        assert s[p] == 'i';
        assert p >= 4;
        assert o.value == n - 1;
      }
    }
  }

  /** The message `duplicate address '<a>'` does not match the invalid-address
      pattern and yields address `a` from the duplicate-address one. */
  lemma {:induction false} DuplicateAddressRoundTrip(a: string, s: string)
    requires SingleLine(a) && forall i :: 0 <= i < |a| ==> a[i] != '\''
    requires s == "duplicate address '" + a + "'"
    ensures CreateInvalidEmailInfo(s) == Some(InvalidEmail(a, s))
  {
    var n := |s|;
    assert s[..17] == "duplicate address";
    assert s[..4] == "dupl";
    assert s[17] == ' ' && s[18] == '\'' && s[n - 1] == '\'';
    assert forall i :: 19 <= i < n - 1 ==> s[i] == a[i - 19];
    assert SingleLine(s);
    assert LastQuote(s) == Some(n - 1);
    DuplicateIsNotInvalid(a, s);
    assert SkipSpaces(s, 17) == 18;
    assert OpeningQuote(DuplicateAddress, s, 0) == Some(18);
    assert MatchesAt(DuplicateAddress, s, 0);
    forall q: nat | 0 < q <= n ensures !MatchesAt(DuplicateAddress, s, q) {
      var o := OpeningQuote(DuplicateAddress, s, q);
      if o.Some? {
        assert o.value >= q + 17 && s[o.value] == '\'';
        assert o.value == n - 1;
      }
    }
    assert LastMatch(DuplicateAddress, s, n) == Some(0);
    assert s[19..n - 1] == a;
  }
}
