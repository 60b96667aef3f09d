/**
  String helpers shared by the name normalisation, icon naming and list sorting:
  ASCII lower-casing (`str.lower`), single-character removal (`str.replace(c, "")`)
  and Python's code-point order on strings (`sorted`).
*/
module Text {

  /** `c.lower()` for the ASCII letters; every other character is left alone. */
  function LowerChar(c: char): (d: char)
    ensures !('A' <= d <= 'Z')
    ensures !('A' <= c <= 'Z') ==> d == c
  {
    if 'A' <= c <= 'Z' then (c as int + 32) as char else c
  }

  predicate IsLower(s: string) {
    forall i :: 0 <= i < |s| ==> !('A' <= s[i] <= 'Z')
  }

  /** `s.lower()` */
  function Lower(s: string): (r: string)
    ensures |r| == |s|
    ensures forall i :: 0 <= i < |s| ==> r[i] == LowerChar(s[i])
    ensures IsLower(r)
  {
    if s == [] then [] else [LowerChar(s[0])] + Lower(s[1..])
  }

  lemma LowerAppend(a: string, b: string)
    ensures Lower(a + b) == Lower(a) + Lower(b)
  {
    assert forall i :: 0 <= i < |a + b| ==> Lower(a + b)[i] == (Lower(a) + Lower(b))[i] by {
      forall i | 0 <= i < |a + b| ensures Lower(a + b)[i] == (Lower(a) + Lower(b))[i] {
        if i < |a| {
          assert (a + b)[i] == a[i];
        } else {
          assert (a + b)[i] == b[i - |a|];
        }
      }
    }
  }

  lemma LowerIdempotent(s: string)
    ensures Lower(Lower(s)) == Lower(s)
  {
  }

  lemma LowerOfLower(s: string)
    requires IsLower(s)
    ensures Lower(s) == s
  {
  }

  /** `s.replace(c, "")` for a one-character `c`: every occurrence of `c` is dropped. */
  function Remove(s: string, c: char): (r: string)
    ensures c !in r
    ensures forall d :: d != c ==> (d in r <==> d in s)
    ensures |r| <= |s|
  {
    if s == [] then []
    else if s[0] == c then Remove(s[1..], c)
    else [s[0]] + Remove(s[1..], c)
  }

  /** Removing a character keeps a lower-case string lower case. */
  lemma RemoveKeepsLower(s: string, c: char)
    requires IsLower(s)
    ensures IsLower(Remove(s, c))
  {
    var r := Remove(s, c);
    forall i | 0 <= i < |r| ensures !('A' <= r[i] <= 'Z') {
      assert r[i] in r;
      assert r[i] in s;
      var j :| 0 <= j < |s| && s[j] == r[i];
    }
  }

  lemma {:induction false} RemoveAbsent(s: string, c: char)
    requires c !in s
    ensures Remove(s, c) == s
  {
    if s != [] {
      RemoveAbsent(s[1..], c);
    }
  }

  lemma {:induction false} RemoveAppend(a: string, b: string, c: char)
    ensures Remove(a + b, c) == Remove(a, c) + Remove(b, c)
  {
    if a == [] {
      assert a + b == b;
    } else {
      assert (a + b)[1..] == a[1..] + b;
      RemoveAppend(a[1..], b, c);
    }
  }

  /** Python's `a < b` on strings: lexicographic by code point, a proper prefix first. */
  predicate StrLess(a: string, b: string)
    decreases |a|
  {
    if |a| == 0 then |b| > 0
    else |b| > 0 && (a[0] < b[0] || (a[0] == b[0] && StrLess(a[1..], b[1..])))
  }

  lemma {:induction false} StrLessIrreflexive(a: string)
    ensures !StrLess(a, a)
  {
    if |a| > 0 {
      StrLessIrreflexive(a[1..]);
    }
  }

  lemma {:induction false} StrLessTransitive(a: string, b: string, c: string)
    requires StrLess(a, b) && StrLess(b, c)
    ensures StrLess(a, c)
  {
    if |a| > 0 && a[0] == b[0] && b[0] == c[0] {
      StrLessTransitive(a[1..], b[1..], c[1..]);
    }
  }

  lemma {:induction false} StrLessTotal(a: string, b: string)
    requires a != b
    ensures StrLess(a, b) || StrLess(b, a)
  {
    if |a| > 0 && |b| > 0 && a[0] == b[0] {
      assert a == [a[0]] + a[1..] && b == [b[0]] + b[1..];
      StrLessTotal(a[1..], b[1..]);
    }
  }

  predicate StrictlySorted(s: seq<string>) {
    forall i, j :: 0 <= i < j < |s| ==> StrLess(s[i], s[j])
  }

  lemma StrictlySortedDistinct(s: seq<string>, i: int, j: int)
    requires StrictlySorted(s)
    requires 0 <= i < |s| && 0 <= j < |s| && i != j
    ensures s[i] != s[j]
  {
    if i < j {
      StrLessIrreflexive(s[i]);
    } else {
      StrLessIrreflexive(s[j]);
    }
  }

  lemma SortedCons(h: string, s: seq<string>)
    requires StrictlySorted(s)
    requires forall y :: y in s ==> StrLess(h, y)
    ensures StrictlySorted([h] + s)
  {
    var r := [h] + s;
    forall i, j | 0 <= i < j < |r| ensures StrLess(r[i], r[j]) {
      if i > 0 {
        assert r[i] == s[i - 1] && r[j] == s[j - 1];
      } else {
        assert r[j] == s[j - 1];
        assert r[j] in s;
      }
    }
  }

  /** Insertion of one name into a strictly sorted list; a name already there is not repeated. */
  function Insert(s: seq<string>, x: string): (r: seq<string>)
    requires StrictlySorted(s)
    ensures StrictlySorted(r)
    ensures forall y :: y in r <==> y in s || y == x
  {
    if s == [] then [x]
    else if x == s[0] then s
    else if StrLess(x, s[0]) then
      assert forall y :: y in s ==> StrLess(x, y) by {
        forall y | y in s ensures StrLess(x, y) {
          var k :| 0 <= k < |s| && s[k] == y;
          if k > 0 { StrLessTransitive(x, s[0], y); }
        }
      }
      SortedCons(x, s);
      [x] + s
    else
      var rest := Insert(s[1..], x);
      assert forall y :: y in rest ==> StrLess(s[0], y) by {
        forall y | y in rest ensures StrLess(s[0], y) {
          if y == x {
            StrLessTotal(x, s[0]);
          } else {
            var k :| 0 <= k < |s[1..]| && s[1..][k] == y;
            assert s[k + 1] == y;
          }
        }
      }
      SortedCons(s[0], rest);
      assert s == [s[0]] + s[1..];
      [s[0]] + rest
  }

  /** `sorted(names)` for a set of distinct names: the strictly increasing list of exactly those names. */
  ghost function SortedSet(names: set<string>): (r: seq<string>)
    ensures StrictlySorted(r)
    ensures forall y :: y in r <==> y in names
    decreases names
  {
    if names == {} then []
    else
      var x :| x in names;
      Insert(SortedSet(names - {x}), x)
  }
}
