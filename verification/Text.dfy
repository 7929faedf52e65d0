/** Small string helpers of the router, each loop proved against a function. */
module Text {

  datatype Option<+T> = None | Some(value: T) {
    function GetOr(default: T): T {
      match this
      case Some(v) => v
      case None => default
    }
  }

  const PARAM_CHAR := ':'

  /** The first position of `x` in `s`. */
  function IndexOf<T(==)>(s: seq<T>, x: T): (r: Option<nat>)
    ensures r.Some? ==> r.value < |s| && s[r.value] == x && x !in s[..r.value]
    ensures r.None? ==> x !in s
  {
    if s == [] then None
    else if s[0] == x then Some(0)
    else
      match IndexOf(s[1..], x)
      case None => None
      case Some(k) => assert s[..k + 1] == [s[0]] + s[1..][..k]; Some(k + 1)
  }

  predicate Distinct<T(==)>(s: seq<T>) {
    forall i, j :: 0 <= i < j < |s| ==> s[i] != s[j]
  }

  /** Length of the longest common prefix. */
  function CommonPrefix(a: string, b: string): (i: nat)
    ensures i <= |a| && i <= |b| && a[..i] == b[..i]
    ensures i < |a| && i < |b| ==> a[i] != b[i]
  {
    if a != [] && b != [] && a[0] == b[0] then
      var i := CommonPrefix(a[1..], b[1..]);
      assert a[..i + 1] == [a[0]] + a[1..][..i] && b[..i + 1] == [b[0]] + b[1..][..i];
      i + 1
    else 0
  }

  /** The common prefix length is determined by agreement and first difference. */
  lemma CommonPrefixUnique(a: string, b: string, i: nat)
    requires i <= |a| && i <= |b| && a[..i] == b[..i]
    requires i < |a| && i < |b| ==> a[i] != b[i]
    ensures CommonPrefix(a, b) == i
  {
    var k := CommonPrefix(a, b);
    assert forall j :: 0 <= j < i ==> a[j] == a[..i][j] == b[j];
    assert forall j :: 0 <= j < k ==> a[j] == a[..k][j] == b[j];
  }

  method FindLongestCommonPrefix(first: string, second: string) returns (i: nat)
    ensures i == CommonPrefix(first, second)
  {
    i := 0;
    var max := if |first| < |second| then |first| else |second|;
    while i < max && first[i] == second[i]
      invariant i <= max
      invariant first[..i] == second[..i]
    {
      i := i + 1;
    }
    CommonPrefixUnique(first, second, i);
  }

  /** Length of the maximal slash-free prefix. */
  function UntilSlash(s: string): (i: nat)
    ensures i <= |s| && '/' !in s[..i] && (i < |s| ==> s[i] == '/')
  {
    IndexOf(s, '/').GetOr(|s|)
  }

  lemma UntilSlashUnique(s: string, i: nat)
    requires i <= |s| && '/' !in s[..i] && (i < |s| ==> s[i] == '/')
    ensures UntilSlash(s) == i
  {
    FirstUnique(s, '/', i);
  }

  /** `i` is where `x` first occurs, or the length of a sequence without it. */
  lemma FirstUnique<T>(s: seq<T>, x: T, i: nat)
    requires i <= |s| && x !in s[..i] && (i < |s| ==> s[i] == x)
    ensures IndexOf(s, x) == if i < |s| then Some(i) else None
  {
    assert forall j :: 0 <= j < i ==> s[j] == s[..i][j] != x;
    var k := IndexOf(s, x).GetOr(|s|);
    assert forall j :: 0 <= j < k ==> s[j] == s[..k][j];
  }

  method FindUntilSlash(s: string) returns (end: nat)
    ensures end == UntilSlash(s)
  {
    end := 0;
    while end < |s| && s[end] != '/'
      invariant end <= |s|
      invariant '/' !in s[..end]
    {
      end := end + 1;
    }
    UntilSlashUnique(s, end);
  }

  /** The position of the first ':' or -1. */
  method FindWildcard(path: string) returns (r: int)
    ensures r == match IndexOf(path, PARAM_CHAR) case Some(k) => k case None => -1
  {
    for i := 0 to |path|
      invariant PARAM_CHAR !in path[..i]
    {
      if path[i] == PARAM_CHAR {
        FirstUnique(path, PARAM_CHAR, i);
        return i;
      }
    }
    FirstUnique(path, PARAM_CHAR, |path|);
    return -1;
  }
}
