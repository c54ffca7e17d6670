/**
  Comparison and search on NUL-terminated strings. A string is modelled by its
  buffer up to and including the terminator, so that an index in range is a read
  that does not go past the terminator.
*/
module WideStrings {

  type Unit = x: int | 0 <= x < 0x1_0000

  predicate Terminated(s: seq<Unit>)
  {
    s != [] && s[|s| - 1] == 0 && forall i :: 0 <= i < |s| - 1 ==> s[i] != 0
  }

  function Text(s: seq<Unit>): (t: seq<Unit>)
    requires Terminated(s)
    ensures |t| == |s| - 1 && forall i :: 0 <= i < |t| ==> t[i] == s[i] != 0
  {
    s[..|s| - 1]
  }

  // ---------- lexicographic order ----------

  function Compare(a: seq<Unit>, b: seq<Unit>): (r: int)
    ensures -1 <= r <= 1
  {
    if a == [] then (if b == [] then 0 else -1)
    else if b == [] then 1
    else if a[0] < b[0] then -1
    else if a[0] > b[0] then 1
    else Compare(a[1..], b[1..])
  }

  lemma {:induction false} CompareZero(a: seq<Unit>, b: seq<Unit>)
    ensures Compare(a, b) == 0 <==> a == b
  {
    if a != [] && b != [] {
      CompareZero(a[1..], b[1..]);
      assert a == [a[0]] + a[1..] && b == [b[0]] + b[1..];
    }
  }

  lemma {:induction false} CompareAntisymmetric(a: seq<Unit>, b: seq<Unit>)
    ensures Compare(a, b) == -Compare(b, a)
  {
    if a != [] && b != [] {
      CompareAntisymmetric(a[1..], b[1..]);
    }
  }

  lemma {:induction false} CompareTransitive(a: seq<Unit>, b: seq<Unit>, c: seq<Unit>)
    requires Compare(a, b) <= 0 && Compare(b, c) <= 0
    ensures Compare(a, c) <= 0
    ensures Compare(a, c) == 0 ==> Compare(a, b) == 0 && Compare(b, c) == 0
  {
    if a != [] && b != [] && c != [] && a[0] == b[0] == c[0] {
      CompareTransitive(a[1..], b[1..], c[1..]);
    }
  }

  /** The order is decided by the first difference, or by the length. */
  lemma {:induction false} CompareAt(a: seq<Unit>, b: seq<Unit>, i: nat)
    requires i <= |a| && i <= |b| && a[..i] == b[..i]
    ensures i < |a| && i < |b| && a[i] != b[i] ==> Compare(a, b) == if a[i] < b[i] then -1 else 1
    ensures i == |a| || i == |b| ==> Compare(a, b) == if |a| < |b| then -1 else if |a| > |b| then 1 else 0
  {
    if i > 0 {
      assert a[0] == a[..i][0] == b[..i][0] == b[0];
      assert a[1..][..i - 1] == a[..i][1..] == b[..i][1..] == b[1..][..i - 1];
      CompareAt(a[1..], b[1..], i - 1);
    }
  }

  /** sc_wcscmp: lexicographic order of the texts. */
  method WcsCmp(s1: seq<Unit>, s2: seq<Unit>) returns (r: int)
    requires Terminated(s1) && Terminated(s2)
    ensures r == Compare(Text(s1), Text(s2))
  {
    var i := 0;
    while s1[i] != 0 && s2[i] != 0
      invariant 0 <= i < |s1| && i < |s2| && Text(s1)[..i] == Text(s2)[..i]
      decreases |s1| - i
    {
      CompareAt(Text(s1), Text(s2), i);
      if s1[i] < s2[i] {
        return -1;
      }
      if s1[i] > s2[i] {
        return 1;
      }
      assert Text(s1)[..i + 1] == Text(s1)[..i] + [s1[i]];
      i := i + 1;
    }
    CompareAt(Text(s1), Text(s2), i);
    if s1[i] == 0 && s2[i] == 0 {
      return 0;
    } else if s1[i] == 0 {
      return -1;
    } else if s2[i] == 0 {
      return 1;
    }
    r := 0;
  }

  // ---------- order up to ASCII case ----------

  function LowerUnit(c: Unit): Unit { if 'A' as int <= c <= 'Z' as int then c + 32 else c }

  function Lower(t: seq<Unit>): (l: seq<Unit>)
    ensures |l| == |t| && forall i :: 0 <= i < |l| ==> l[i] == LowerUnit(t[i])
  {
    seq(|t|, i requires 0 <= i < |t| => LowerUnit(t[i]))
  }

  method WcsLen(s: seq<Unit>) returns (n: nat)
    requires Terminated(s)
    ensures n == |Text(s)|
  {
    n := 0;
    while s[n] != 0
      invariant n < |s|
      decreases |s| - n
    {
      n := n + 1;
    }
  }

  /** sc_wcscasecmp: the same order on the lower-cased texts. */
  method WcsCaseCmp(s1: seq<Unit>, s2: seq<Unit>) returns (r: int)
    requires Terminated(s1) && Terminated(s2)
    ensures r == Compare(Lower(Text(s1)), Lower(Text(s2)))
  {
    var len1 := WcsLen(s1);
    var len2 := WcsLen(s2);
    var n := if len1 > len2 then len2 else len1;
    ghost var a, b := Lower(Text(s1)), Lower(Text(s2));
    for i := 0 to n
      invariant a[..i] == b[..i]
    {
      var ch1 := LowerUnit(s1[i]);
      var ch2 := LowerUnit(s2[i]);
      CompareAt(a, b, i);
      if ch1 < ch2 {
        return -1;
      }
      if ch1 > ch2 {
        return 1;
      }
      assert a[..i + 1] == a[..i] + [ch1] && b[..i + 1] == b[..i] + [ch2];
    }
    CompareAt(a, b, n);
    if len1 < len2 {
      return -1;
    } else if len1 > len2 {
      return 1;
    }
    r := 0;
  }

  /** Equality up to case is an equivalence, and the order up to case a total
      preorder on the texts. */
  lemma CaseOrder(a: seq<Unit>, b: seq<Unit>, c: seq<Unit>)
    ensures Compare(Lower(a), Lower(b)) == -Compare(Lower(b), Lower(a))
    ensures Compare(Lower(a), Lower(b)) == 0 <==>
              |a| == |b| && forall i :: 0 <= i < |a| ==> LowerUnit(a[i]) == LowerUnit(b[i])
    ensures Compare(Lower(a), Lower(b)) <= 0 && Compare(Lower(b), Lower(c)) <= 0 ==> Compare(Lower(a), Lower(c)) <= 0
  {
    CompareAntisymmetric(Lower(a), Lower(b));
    CompareZero(Lower(a), Lower(b));
    if Compare(Lower(a), Lower(b)) <= 0 && Compare(Lower(b), Lower(c)) <= 0 {
      CompareTransitive(Lower(a), Lower(b), Lower(c));
    }
    if Lower(a) == Lower(b) {
      assert forall i :: 0 <= i < |a| ==> Lower(a)[i] == Lower(b)[i];
    }
  }

  // ---------- search ----------

  predicate OccursAt(hay: seq<Unit>, needle: seq<Unit>, k: int)
  {
    0 <= k <= k + |needle| <= |hay| && hay[k..k + |needle|] == needle
  }

  predicate IsFirst(hay: seq<Unit>, needle: seq<Unit>, k: int)
  {
    if k == -1 then forall j :: 0 <= j <= |hay| ==> !OccursAt(hay, needle, j)
    else OccursAt(hay, needle, k) && forall j :: 0 <= j < k ==> !OccursAt(hay, needle, j)
  }

  lemma NoRoom(hay: seq<Unit>, needle: seq<Unit>)
    requires |hay| < |needle|
    ensures IsFirst(hay, needle, -1)
  {
  }

  lemma UnitOfOccurrence(hay: seq<Unit>, needle: seq<Unit>, k: nat, i: nat)
    requires OccursAt(hay, needle, k) && i < |needle|
    ensures k + i < |hay| && hay[k + i] == needle[i]
  {
    assert hay[k..k + |needle|][i] == hay[k + i];
  }

  lemma DiffersAt(hay: seq<Unit>, needle: seq<Unit>, k: nat, i: nat)
    requires i < |needle| && (k + i >= |hay| || hay[k + i] != needle[i])
    ensures !OccursAt(hay, needle, k)
  {
    if OccursAt(hay, needle, k) {
      UnitOfOccurrence(hay, needle, k, i);
    }
  }

  /** sc_wcsstr: the first position where the needle occurs, -1 when there is
      none. Neither loop reads past a terminator. */
  method WcsStr(haystack: seq<Unit>, needle: seq<Unit>) returns (k: int)
    requires Terminated(haystack) && Terminated(needle)
    ensures IsFirst(Text(haystack), Text(needle), k)
  {
    ghost var hay, nee := Text(haystack), Text(needle);
    if needle[0] == 0 {
      return 0;
    }
    var hayLen := WcsLen(haystack);
    var needleLen := WcsLen(needle);
    if hayLen < needleLen {
      NoRoom(hay, nee);
      return -1;
    }
    var p := 0;
    while haystack[p] != 0
      invariant 0 <= p < |haystack|
      invariant forall j :: 0 <= j < p ==> !OccursAt(hay, nee, j)
      decreases |haystack| - p
    {
      var q, r := 0, p;
      while needle[q] != 0
        invariant 0 <= q < |needle| && r == p + q < |haystack|
        invariant hay[p..p + q] == nee[..q]
        decreases |needle| - q
      {
        if haystack[r] != needle[q] {
          break;
        }
        assert hay[p..p + q + 1] == hay[p..p + q] + [hay[r]];
        q, r := q + 1, r + 1;
      }
      if needle[q] == 0 {
        assert nee[..q] == nee;
        return p;
      }
      DiffersAt(hay, nee, p, q);
      p := p + 1;
    }
    DiffersAt(hay, nee, p, 0);
    k := -1;
  }

  function UpperUnit(c: Unit): Unit { if 'a' as int <= c <= 'z' as int then c - 32 else c }

  function Upper(t: seq<Unit>): (u: seq<Unit>)
    ensures |u| == |t| && forall i :: 0 <= i < |u| ==> u[i] == UpperUnit(t[i])
  {
    seq(|t|, i requires 0 <= i < |t| => UpperUnit(t[i]))
  }

  // The inner loop of sc_strcasestr: how far the needle agrees with the text from s on.
  method MatchFrom(haystack: seq<Unit>, needle: seq<Unit>, s: nat) returns (q: nat)
    requires Terminated(haystack) && Terminated(needle) && s < |Text(haystack)| && Text(needle) != []
    requires UpperUnit(haystack[s]) == UpperUnit(needle[0])
    ensures if q == |Text(needle)| then OccursAt(Upper(Text(haystack)), Upper(Text(needle)), s)
            else q < |Text(needle)| && !OccursAt(Upper(Text(haystack)), Upper(Text(needle)), s)
  {
    ghost var hay, nee := Upper(Text(haystack)), Upper(Text(needle));
    var p := s + 1;
    q := 1;
    assert hay[s..s + 1] == [hay[s]] == nee[..1];
    while needle[q] != 0
      invariant 1 <= q < |needle| && p == s + q < |haystack|
      invariant hay[s..s + q] == nee[..q]
      decreases |needle| - q
    {
      if haystack[p] != needle[q] && UpperUnit(haystack[p]) != UpperUnit(needle[q]) {
        break;
      }
      assert haystack[p] != 0;
      assert hay[s..s + q + 1] == hay[s..s + q] + [hay[p]];
      p, q := p + 1, q + 1;
    }
    if q == |nee| {
      assert nee[..q] == nee;
    } else {
      DiffersAt(hay, nee, s, q);
    }
  }

  /** sc_strcasestr: the first position where the needle occurs up to ASCII case. */
  method StrCaseStr(haystack: seq<Unit>, needle: seq<Unit>) returns (k: int)
    requires Terminated(haystack) && Terminated(needle)
    ensures IsFirst(Upper(Text(haystack)), Upper(Text(needle)), k)
  {
    ghost var hay, nee := Upper(Text(haystack)), Upper(Text(needle));
    var n0 := UpperUnit(needle[0]);
    if n0 == 0 {
      return 0;
    }
    var s := 0;
    while haystack[s] != 0
      invariant 0 <= s < |haystack|
      invariant forall j :: 0 <= j < s ==> !OccursAt(hay, nee, j)
      decreases |haystack| - s
    {
      if UpperUnit(haystack[s]) == n0 {
        var q := MatchFrom(haystack, needle, s);
        if needle[q] == 0 {
          return s;
        }
      } else {
        DiffersAt(hay, nee, s, 0);
      }
      s := s + 1;
    }
    DiffersAt(hay, nee, s, 0);
    k := -1;
  }
}
