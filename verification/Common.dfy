/** Small vocabulary shared by the kernel models. */
module Common {

  datatype Option<+T> = None | Some(value: T)

  const PAGE_SIZE: nat := 0x1000

  /** A byte of memory or of a file. */
  newtype byte = x: int | 0 <= x < 0x100

  /** No element occurs twice. */
  ghost predicate NoDup<T>(s: seq<T>) {
    forall i, j :: 0 <= i < j < |s| ==> s[i] != s[j]
  }

  /** klib::align_up and klib::align_down. */
  function AlignUp(i: nat, alignment: nat): nat
    requires alignment > 0
  {
    if i % alignment != 0 then (i / alignment + 1) * alignment else i
  }

  function AlignDown(i: nat, alignment: nat): nat
    requires alignment > 0
  {
    if i % alignment != 0 then (i / alignment) * alignment else i
  }

  function Min(a: nat, b: nat): nat {
    if b < a then b else a
  }

  /** A list after its element `x` has been unlinked. */
  function Without<T(==,!new)>(s: seq<T>, x: T): (r: seq<T>)
    ensures forall y :: y in r <==> y in s && y != x
    ensures |r| <= |s|
  {
    if s == [] then []
    else
      assert s == [s[0]] + s[1..];
      if s[0] == x then Without(s[1..], x) else [s[0]] + Without(s[1..], x)
  }

  lemma {:induction false} WithoutAbsent<T(!new)>(s: seq<T>, x: T)
    requires x !in s
    ensures Without(s, x) == s
  {
    if s != [] {
      WithoutAbsent(s[1..], x);
    }
  }

  lemma {:induction false} WithoutPush<T(!new)>(s: seq<T>, y: T, x: T)
    ensures Without(s + [y], x) == Without(s, x) + if y == x then [] else [y]
  {
    if s != [] {
      assert (s + [y])[1..] == s[1..] + [y];
      WithoutPush(s[1..], y, x);
    }
  }

  lemma {:induction false} WithoutBoth<T(!new)>(s: seq<T>, x: T, y: T)
    ensures Without(Without(s, x), y) == Without(Without(s, y), x)
  {
    if s != [] {
      WithoutBoth(s[1..], x, y);
    }
  }

  lemma {:induction false} WithoutNoDup<T(!new)>(s: seq<T>, x: T)
    requires NoDup(s)
    ensures NoDup(Without(s, x))
  {
    if s != [] {
      assert NoDup(s[1..]) by {
        forall i, j | 0 <= i < j < |s[1..]|
          ensures s[1..][i] != s[1..][j]
        {
          assert s[i+1] != s[j+1];
        }
      }
      WithoutNoDup(s[1..], x);
      if s[0] != x {
        var t := Without(s[1..], x);
        assert s[0] !in s[1..];
        assert s[0] !in t;
        assert Without(s, x) == [s[0]] + t;
      }
    }
  }

  lemma NoDupPush<T>(s: seq<T>, x: T)
    requires NoDup(s) && x !in s
    ensures NoDup(s + [x]) && NoDup([x] + s)
  {
    var a, b := s + [x], [x] + s;
    forall i, j | 0 <= i < j < |a|
      ensures a[i] != a[j]
    {
      assert a[i] == s[i] && s[i] in s;
    }
    forall i, j | 0 <= i < j < |b|
      ensures b[i] != b[j]
    {
      assert b[j] == s[j - 1] && s[j - 1] in s;
    }
  }

  /** Taking element `k` out of a list without duplicates. */
  lemma NoDupCut<T(!new)>(s: seq<T>, k: nat)
    requires NoDup(s) && k < |s|
    ensures NoDup(s[..k] + s[k+1..])
    ensures forall x :: x in s[..k] + s[k+1..] <==> x in s && x != s[k]
  {
    var t := s[..k] + s[k+1..];
    assert s == s[..k] + [s[k]] + s[k+1..];
    forall i, j | 0 <= i < j < |t|
      ensures t[i] != t[j]
    {
      assert t[i] == s[if i < k then i else i + 1] && t[j] == s[if j < k then j else j + 1];
    }
    forall i | 0 <= i < |t|
      ensures t[i] != s[k]
    {
      assert t[i] == s[if i < k then i else i + 1];
    }
  }

  lemma NoDupPop<T(!new)>(s: seq<T>)
    requires NoDup(s) && s != []
    ensures NoDup(s[1..]) && forall x :: x in s[1..] <==> x in s && x != s[0]
  {
    NoDupCut(s, 0);
    assert s[..0] + s[1..] == s[1..];
  }

  lemma NoDupConcat<T>(s: seq<T>, t: seq<T>)
    requires NoDup(s) && NoDup(t) && forall x :: x in s ==> x !in t
    ensures NoDup(s + t)
  {
    forall i, j | 0 <= i < j < |s + t|
      ensures (s + t)[i] != (s + t)[j]
    {
      assert i < |s| ==> s[i] in s;
    }
  }

  lemma {:induction false} NoDupSize<T>(s: seq<T>)
    requires NoDup(s)
    ensures |set x | x in s| == |s|
  {
    if s != [] {
      var n := |s| - 1;
      NoDupSize(s[..n]);
      assert s == s[..n] + [s[n]];
      assert (set x | x in s) == (set x | x in s[..n]) + {s[n]};
      assert s[n] !in s[..n];
    }
  }

  /** Two lists of the same elements without repetition are equally long. */
  lemma SameLength<T>(s: seq<T>, t: seq<T>)
    requires NoDup(s) && NoDup(t) && forall x :: x in s <==> x in t
    ensures |s| == |t|
  {
    NoDupSize(s);
    NoDupSize(t);
    assert (set x | x in s) == (set x | x in t);
  }
}
