/** Shared vocabulary: optional values, .NET-style clock ticks and the string helpers
    the C# code calls (ordinal comparison, invariant lower-casing). */
module Common {

  datatype Option<T> = None | Some(value: T) {
    function GetOr(default: T): T {
      match this
      case Some(v) => v
      case None => default
    }
  }

  /** A point in time as .NET ticks (100 ns) since 0001-01-01; DateTime.MinValue is 0. */
  type DateTime = int

  const TicksPerSecond: int := 10_000_000
  const TicksPerMinute: int := 60 * TicksPerSecond
  const TicksPerHour: int := 60 * TicksPerMinute
  const TicksPerDay: int := 24 * TicksPerHour

  const DateTimeMinValue: DateTime := 0
  /** new DateTime(1900, 1, 1): 693595 days after 0001-01-01. */
  const Jan1st1900: DateTime := 693595 * TicksPerDay
  /** new DateTime(2020, 1, 1): 737424 days after 0001-01-01. */
  const Jan1st2020: DateTime := 737424 * TicksPerDay

  function AddSeconds(t: DateTime, s: int): (r: DateTime)
    ensures r - t == s * TicksPerSecond
  {
    t + s * TicksPerSecond
  }

  function AddMinutes(t: DateTime, m: int): (r: DateTime)
    ensures r - t == m * TicksPerMinute
  {
    t + m * TicksPerMinute
  }

  /** char.IsWhiteSpace restricted to the ASCII and Latin-1 white-space characters. */
  predicate IsWhiteSpace(c: char) {
    c == ' ' || c == '\t' || c == '\n' || c == '\r' || c == '\U{000B}' || c == '\U{000C}' || c == '\U{0085}' || c == '\U{00A0}'
  }

  /** string.IsNullOrWhiteSpace; a null string is modelled as "". */
  predicate IsNullOrWhiteSpace(s: string) {
    forall i :: 0 <= i < |s| ==> IsWhiteSpace(s[i])
  }

  predicate StartsWith(s: string, prefix: string) {
    |prefix| <= |s| && s[..|prefix|] == prefix
  }

  predicate EndsWith(s: string, suffix: string) {
    |suffix| <= |s| && s[|s| - |suffix|..] == suffix
  }

  function LowerChar(c: char): (r: char)
    ensures 'A' <= c <= 'Z' ==> 'a' <= r <= 'z'
    ensures !('A' <= c <= 'Z') ==> r == c
  {
    if 'A' <= c <= 'Z' then (c as int - 'A' as int + 'a' as int) as char else c
  }

  /** string.ToLower with invariant (ASCII) casing rules. */
  function ToLower(s: string): (r: string)
    ensures |r| == |s|
    ensures forall i :: 0 <= i < |s| ==> r[i] == LowerChar(s[i])
  {
    seq(|s|, i requires 0 <= i < |s| => LowerChar(s[i]))
  }

  /** Lower-casing keeps prefixes: the case-insensitive test of ProcessQueuedItem holds for
      every path that starts with the library root literally. */
  lemma ToLowerKeepsPrefix(s: string, prefix: string)
    requires StartsWith(s, prefix)
    ensures StartsWith(ToLower(s), ToLower(prefix))
  {
    assert ToLower(s)[..|prefix|] == ToLower(prefix);
  }

  /** The maximum of a non-empty sequence of times. */
  function MaxOf(xs: seq<int>): (m: int)
    requires |xs| > 0
    ensures forall i :: 0 <= i < |xs| ==> xs[i] <= m
    ensures exists i :: 0 <= i < |xs| && xs[i] == m
  {
    if |xs| == 1 then xs[0]
    else
      var rest := MaxOf(xs[1..]);
      assert forall i :: 1 <= i < |xs| ==> xs[i] == xs[1..][i - 1];
      if xs[0] >= rest then xs[0] else rest
  }

  predicate NoDuplicates<T(==)>(s: seq<T>) {
    forall i, j :: 0 <= i < j < |s| ==> s[i] != s[j]
  }

  /** Sequence concatenation associates; stated once so that proofs can cite it instead of
      rediscovering it by extensionality. */
  lemma AppendAssociates<T>(a: seq<T>, b: seq<T>, c: seq<T>)
    ensures a + b + c == a + (b + c)
  {
  }

  /** The multiset of a non-empty sequence splits off its last element. */
  lemma MultisetSplitLast<T>(xs: seq<T>)
    requires xs != []
    ensures multiset(xs) == multiset(xs[..|xs| - 1]) + multiset{xs[|xs| - 1]}
  {
    assert xs == xs[..|xs| - 1] + [xs[|xs| - 1]];
  }
}
