/** Small datatypes and sequence facts shared by the models. */
module Prelude {

  datatype Option<+T> = None | Some(value: T)

  function Reverse<T>(s: seq<T>): (r: seq<T>)
    ensures |r| == |s|
  {
    if s == [] then [] else Reverse(s[1..]) + [s[0]]
  }

  // ----- strings in code-point order -----

  predicate StrLe(a: string, b: string) {
    a == [] || (b != [] && (a[0] < b[0] || (a[0] == b[0] && StrLe(a[1..], b[1..]))))
  }

  lemma {:induction false} StrLeTotal(a: string, b: string)
    ensures StrLe(a, b) || StrLe(b, a)
    ensures StrLe(a, b) && StrLe(b, a) ==> a == b
  {
    if a != [] && b != [] {
      StrLeTotal(a[1..], b[1..]);
      if a[0] == b[0] && a[1..] == b[1..] {
        assert a == [a[0]] + a[1..] && b == [b[0]] + b[1..];
      }
    }
  }

  lemma {:induction false} StrLeTransitive(a: string, b: string, c: string)
    requires StrLe(a, b) && StrLe(b, c)
    ensures StrLe(a, c)
  {
    if a != [] && a[0] == b[0] && b[0] == c[0] {
      StrLeTransitive(a[1..], b[1..], c[1..]);
    }
  }

  lemma {:induction false} FindLeast(ks: set<string>) returns (k: string)
    requires ks != {}
    ensures k in ks && forall j :: j in ks ==> StrLe(k, j)
    decreases |ks|
  {
    k :| k in ks;
    var rest := ks - {k};
    StrLeTotal(k, k);
    if rest != {} {
      var y := FindLeast(rest);
      StrLeTotal(k, y);
      if StrLe(k, y) {
        forall j | j in rest ensures StrLe(k, j) { StrLeTransitive(k, y, j); }
      } else {
        k := y;
      }
    }
  }

  function Least(ks: set<string>): (k: string)
    requires ks != {}
    ensures k in ks && forall j :: j in ks ==> StrLe(k, j)
  {
    assert exists k :: k in ks && forall j :: j in ks ==> StrLe(k, j) by {
      var k := FindLeast(ks);
    }
    assert forall k, j | k in ks && j in ks && StrLe(k, j) && StrLe(j, k) :: k == j by {
      forall k, j | k in ks && j in ks && StrLe(k, j) && StrLe(j, k) ensures k == j {
        StrLeTotal(k, j);
      }
    }
    var k :| k in ks && forall j :: j in ks ==> StrLe(k, j);
    k
  }

  /** `sorted(ks)` for a set of strings. */
  function SortedKeys(ks: set<string>): (r: seq<string>)
    ensures forall k :: k in r <==> k in ks
    ensures forall i :: 0 <= i < |r| ==> r[i] in ks
    ensures forall i, j :: 0 <= i < j < |r| ==> StrLe(r[i], r[j]) && r[i] != r[j]
    decreases |ks|
  {
    if ks == {} then []
    else
      var k := Least(ks);
      [k] + SortedKeys(ks - {k})
  }

  // ----- slashes -----

  predicate AllSlashes(s: string) { forall i :: 0 <= i < |s| ==> s[i] == '/' }

  /** `r` is `path` from `i` to `j`: outside are only slashes, and it does not start or end with one. */
  ghost predicate Strips(path: string, r: string, i: nat, j: nat) {
    && i <= j <= |path| && r == path[i..j]
    && (forall k :: 0 <= k < i || j <= k < |path| ==> path[k] == '/')
    && (i < j ==> path[i] != '/' && path[j - 1] != '/')
  }

  /** `lstrip("/")`. */
  function StripLeadingSlashes(s: string): string {
    if s != "" && s[0] == '/' then StripLeadingSlashes(s[1..]) else s
  }

  lemma {:induction false} StripLeadingMeaning(s: string) returns (i: nat)
    ensures i <= |s| && StripLeadingSlashes(s) == s[i..]
    ensures forall k :: 0 <= k < i ==> s[k] == '/'
    ensures i < |s| ==> s[i] != '/'
  {
    if s != "" && s[0] == '/' {
      var j := StripLeadingMeaning(s[1..]);
      i := j + 1;
      assert s[1..][j..] == s[i..];
      forall k | 0 <= k < i ensures s[k] == '/' {
        if k > 0 { assert s[1..][k - 1] == s[k]; }
      }
    } else {
      i := 0;
    }
  }

  /** `rstrip("/")`. */
  function StripTrailingSlashes(s: string): (r: string)
    ensures r <= s
    ensures r != [] ==> r[|r| - 1] != '/'
    ensures forall i :: |r| <= i < |s| ==> s[i] == '/'
  {
    if s != [] && s[|s| - 1] == '/' then StripTrailingSlashes(s[..|s| - 1]) else s
  }

  // ----- numbers -----

  /** `int(x)`: truncation toward zero. */
  function Truncate(x: real): int {
    if x >= 0.0 then x.Floor else -((-x).Floor)
  }

  /** `n` times `x`, added up. */
  function Sum(n: nat, x: real): real {
    if n == 0 then 0.0 else x + Sum(n - 1, x)
  }

  lemma {:induction false} SumIsProduct(n: nat, x: real)
    ensures Sum(n, x) == n as real * x
  {
    if n > 0 { SumIsProduct(n - 1, x); }
  }

  // ----- sets -----

  lemma SubsetSize<T>(a: set<T>, b: set<T>)
    requires a <= b
    ensures |a| <= |b|
  {
    assert b == a + (b - a);
  }

  // ----- case -----

  function UpperChar(c: char): char {
    if 'a' <= c <= 'z' then (c as int - 32) as char else c
  }

  function Upper(s: string): string {
    seq(|s|, i requires 0 <= i < |s| => UpperChar(s[i]))
  }

  function LowerChar(c: char): char {
    if 'A' <= c <= 'Z' then (c as int + 32) as char else c
  }

  function Lower(s: string): (r: string)
    ensures |r| == |s|
  {
    seq(|s|, i requires 0 <= i < |s| => LowerChar(s[i]))
  }

  /** The same character, or the two cases of one ASCII letter. */
  predicate SameLetter(c: char, d: char) {
    c == d || ('A' <= c <= 'Z' && d as int == c as int + 32) || ('A' <= d <= 'Z' && c as int == d as int + 32)
  }

  predicate SameIgnoringCase(s: string, t: string) {
    |s| == |t| && forall i :: 0 <= i < |s| ==> SameLetter(s[i], t[i])
  }

  lemma LowerIff(s: string, t: string)
    ensures Lower(s) == Lower(t) <==> SameIgnoringCase(s, t)
  {
    if Lower(s) == Lower(t) {
      forall i | 0 <= i < |s| ensures SameLetter(s[i], t[i]) {
        assert Lower(s)[i] == LowerChar(s[i]) && Lower(t)[i] == LowerChar(t[i]);
      }
    }
  }

  lemma UpperIff(s: string, t: string)
    ensures Upper(s) == Upper(t) <==> SameIgnoringCase(s, t)
  {
    if Upper(s) == Upper(t) {
      forall i | 0 <= i < |s| ensures SameLetter(s[i], t[i]) {
        assert Upper(s)[i] == UpperChar(s[i]) && Upper(t)[i] == UpperChar(t[i]);
      }
    }
  }
}
