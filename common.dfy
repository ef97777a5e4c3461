/** Vocabulary shared by the browser front end and the Java back end:
    optional values, results carrying an error message, and the sequence
    and string helpers that several components rely on. */
module Common {

  datatype Option<T> = None | Some(value: T)

  /** An operation that either produces a value or raises (a JS `throw`,
      a Java exception); `error` is the exception's message. */
  datatype Result<T> = Ok(value: T) | Err(error: string)

  predicate Distinct<T(==)>(s: seq<T>) {
    forall i, j :: 0 <= i < j < |s| ==> s[i] != s[j]
  }

  /** The elements of `s` without repeats, each kept at its first position:
      the order of a JS Set or Java LinkedHashMap filled in the order of `s`,
      and of a JS object's keys when none of them is integer-like. */
  function Dedup<T(==,!new)>(s: seq<T>): (r: seq<T>)
    ensures Distinct(r)
    ensures forall x :: x in r <==> x in s
    ensures |r| <= |s|
  {
    if s == [] then []
    else
      var d := Dedup(s[..|s| - 1]);
      assert forall x :: x in s <==> x in s[..|s| - 1] || x == s[|s| - 1];
      if s[|s| - 1] in d then d else d + [s[|s| - 1]]
  }

  /** Position of `x` in `s`. */
  function IndexOf<T(==)>(s: seq<T>, x: T): (i: nat)
    requires x in s
    ensures i < |s| && s[i] == x
    ensures forall j :: 0 <= j < i ==> s[j] != x
  {
    if s[0] == x then 0 else 1 + IndexOf(s[1..], x)
  }

  /** `Collections.reverse`, `Array.prototype.reverse`. */
  function Reverse<T>(s: seq<T>): (r: seq<T>)
    ensures |r| == |s| && forall i :: 0 <= i < |s| ==> r[i] == s[|s| - 1 - i]
  {
    if s == [] then [] else Reverse(s[1..]) + [s[0]]
  }

  lemma FullPrefix<T>(s: seq<T>)
    ensures s[..|s|] == s
  {
  }

  lemma PrefixOfPrefix<T>(s: seq<T>, j: nat)
    requires 0 < j <= |s|
    ensures s[..j][..j - 1] == s[..j - 1]
  {
  }

  /** In a distinct sequence the position of an element is its index. */
  lemma DistinctIndexOf<T>(s: seq<T>, k: nat)
    requires Distinct(s) && k < |s|
    ensures IndexOf(s, s[k]) == k
  {
  }

  lemma DistinctCons<T>(a: T, s: seq<T>)
    ensures Distinct([a] + s) <==> a !in s && Distinct(s)
  {
    if a !in s && Distinct(s) {
      forall i, j | 0 <= i < j < |[a] + s|
        ensures ([a] + s)[i] != ([a] + s)[j]
      {
        assert ([a] + s)[j] == s[j - 1];
      }
    }
    if Distinct([a] + s) {
      forall i, j | 0 <= i < j < |s|
        ensures s[i] != s[j]
      {
        assert s[i] == ([a] + s)[i + 1] && s[j] == ([a] + s)[j + 1];
      }
      forall j | 0 <= j < |s|
        ensures s[j] != a
      {
        assert ([a] + s)[0] == a && ([a] + s)[j + 1] == s[j];
      }
    }
  }

  /** A distinct sequence has as many elements as its set. */
  lemma {:induction false} DistinctCard<T>(s: seq<T>)
    requires Distinct(s)
    ensures |set x | x in s| == |s|
  {
    if s != [] {
      var t := s[1..];
      assert Distinct(t);
      DistinctCard(t);
      assert (set x | x in s) == (set x | x in t) + {s[0]};
      assert s[0] !in t;
    }
  }

  /** Distinct elements drawn from a sequence are at most as many as it. */
  lemma DistinctWithin<T>(a: seq<T>, b: seq<T>)
    requires Distinct(a) && forall x :: x in a ==> x in b
    ensures |a| <= |b|
    ensures Distinct(b) && |a| == |b| ==> forall x :: x in b ==> x in a
  {
    var sa := set x | x in a;
    var sb := set x | x in b;
    DistinctCard(a);
    SubsetCard(sa, sb);
    SetOfLength(b);
    if Distinct(b) && |a| == |b| {
      DistinctCard(b);
      if sa != sb {
        var y :| y in sb && y !in sa;
        SubsetCard(sa, sb - {y});
        assert false;
      }
      forall x | x in b
        ensures x in a
      {
        assert x in sb;
      }
    }
  }

  lemma {:induction false} SubsetCard<T>(a: set<T>, b: set<T>)
    requires a <= b
    ensures |a| <= |b|
    decreases |b|
  {
    if b != {} {
      var x :| x in b;
      if x in a {
        SubsetCard(a - {x}, b - {x});
      } else {
        SubsetCard(a, b - {x});
      }
    }
  }

  lemma {:induction false} SetOfLength<T>(s: seq<T>)
    ensures |set x | x in s| <= |s|
  {
    if s != [] {
      SetOfLength(s[1..]);
      assert (set x | x in s) == (set x | x in s[1..]) + {s[0]};
    }
  }

  /** Two keys joined with an underscore: the template `${a}_${b}`. */
  function Join(a: string, b: string): string {
    a + "_" + b
  }

  /** JS string comparison `a <= b` (lexicographic on characters: the model
      compares `char`s, JS compares UTF-16 code units). */
  predicate LexLe(a: string, b: string) {
    |a| == 0 || (|b| > 0 && (a[0] < b[0] || (a[0] == b[0] && LexLe(a[1..], b[1..]))))
  }

  lemma {:induction false} LexLeTotal(a: string, b: string)
    ensures LexLe(a, b) || LexLe(b, a)
  {
    if |a| > 0 && |b| > 0 && a[0] == b[0] {
      LexLeTotal(a[1..], b[1..]);
    }
  }

  lemma {:induction false} LexLeAntisymmetric(a: string, b: string)
    requires LexLe(a, b) && LexLe(b, a)
    ensures a == b
  {
    if |a| > 0 && |b| > 0 {
      LexLeAntisymmetric(a[1..], b[1..]);
      assert a == [a[0]] + a[1..] && b == [b[0]] + b[1..];
    }
  }

  /** The direction-independent key `[a, b].sort().join("_")`: the smaller
      string first. */
  function PairKey(a: string, b: string): (k: string)
    ensures k == Join(a, b) || k == Join(b, a)
  {
    if LexLe(a, b) then Join(a, b) else Join(b, a)
  }

  /** The sorted key does not depend on the order of its arguments. */
  lemma PairKeySymmetric(a: string, b: string)
    ensures PairKey(a, b) == PairKey(b, a)
  {
    LexLeTotal(a, b);
    if LexLe(a, b) && LexLe(b, a) {
      LexLeAntisymmetric(a, b);
    }
  }

  /** The part of `s` before its first underscore. */
  function UpToUnderscore(s: string): string {
    if s == [] || s[0] == '_' then [] else [s[0]] + UpToUnderscore(s[1..])
  }

  lemma {:induction false} UpToUnderscoreJoin(a: string, b: string)
    requires '_' !in a
    ensures UpToUnderscore(Join(a, b)) == a
  {
    if a != [] {
      assert Join(a, b)[1..] == Join(a[1..], b);
      UpToUnderscoreJoin(a[1..], b);
    }
  }

  /** Joining is injective as long as the first parts hold no underscore. */
  lemma JoinInjective(a: string, b: string, c: string, d: string)
    requires '_' !in a && '_' !in c
    requires Join(a, b) == Join(c, d)
    ensures a == c && b == d
  {
    UpToUnderscoreJoin(a, b);
    UpToUnderscoreJoin(c, d);
    var j := Join(a, b);
    assert b == j[|a| + 1..];
    assert d == j[|c| + 1..];
  }

  /** Without underscores in the identifiers, the sorted key determines the
      unordered pair. */
  lemma PairKeyInjective(a: string, b: string, c: string, d: string)
    requires '_' !in a && '_' !in b && '_' !in c && '_' !in d
    requires PairKey(a, b) == PairKey(c, d)
    ensures (a == c && b == d) || (a == d && b == c)
  {
    if LexLe(a, b) {
      if LexLe(c, d) { JoinInjective(a, b, c, d); } else { JoinInjective(a, b, d, c); }
    } else {
      if LexLe(c, d) { JoinInjective(b, a, c, d); } else { JoinInjective(b, a, d, c); }
    }
  }

  /** With an underscore inside an identifier two different pairs share a
      key: {"a_b", "c"} and {"a", "b_c"} both give "a_b_c". */
  lemma PairKeyCollision()
    ensures PairKey("a_b", "c") == PairKey("a", "b_c") == "a_b_c"
  {
    assert LexLe("a_b", "c");
    assert "b_c"[1..] == "_c";
    assert LexLe("a", "b_c");
  }
}
