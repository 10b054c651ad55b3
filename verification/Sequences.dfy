/** Sequence vocabulary shared by the reconcilers: JavaScript's `filter`, `new Set(...)` and friends. */
module Sequences {

  function ToSet<T>(s: seq<T>): set<T> {
    set x | x in s
  }

  ghost predicate NoDuplicates<T>(s: seq<T>) {
    forall i, j :: 0 <= i < j < |s| ==> s[i] != s[j]
  }

  lemma Assoc<T>(a: seq<T>, b: seq<T>, c: seq<T>)
    ensures (a + b) + c == a + (b + c)
  {
  }

  lemma Nil<T>(s: seq<T>)
    ensures s + [] == s && [] + s == s
  {
  }

  lemma InitLast<T>(s: seq<T>)
    requires s != []
    ensures s == s[..|s| - 1] + [s[|s| - 1]]
  {
  }

  lemma InitOfAppend<T>(s: seq<T>, x: T)
    ensures (s + [x])[..|s + [x]| - 1] == s
  {
  }

  lemma InAppend<T>(s: seq<T>, x: T, y: T)
    ensures y in s + [x] <==> y in s || y == x
  {
  }

  lemma ToSetAppend<T(!new)>(s: seq<T>, x: T)
    ensures ToSet(s + [x]) == ToSet(s) + {x}
  {
  }

  lemma EmptyIffNoMember<T(!new)>(s: seq<T>)
    ensures s == [] <==> forall x :: x !in s
  {
    if s != [] {
      assert s[0] in s;
    }
  }

  /** `list.filter(d => !drop.has(d))` */
  function Without<T(==, !new)>(s: seq<T>, drop: set<T>): (r: seq<T>)
    ensures forall x :: x in r <==> x in s && x !in drop
  {
    if s == [] then []
    else
      var init, last := s[..|s| - 1], s[|s| - 1];
      assert s == init + [last];
      Without(init, drop) + (if last in drop then [] else [last])
  }

  /** `[...new Set(list)]`: first occurrences, in order. */
  function Dedup<T(==, !new)>(s: seq<T>): (r: seq<T>)
    ensures forall x :: x in r <==> x in s
  {
    if s == [] then []
    else
      var init, last := s[..|s| - 1], s[|s| - 1];
      assert s == init + [last];
      var r := Dedup(init);
      if last in init then r else r + [last]
  }

  /** A filter that drops nothing returns an equal list: comparing lengths is enough to see a change. */
  lemma {:induction false} WithoutLength<T(!new)>(s: seq<T>, drop: set<T>)
    ensures |Without(s, drop)| <= |s|
    ensures |Without(s, drop)| == |s| ==> Without(s, drop) == s
  {
    if s != [] {
      WithoutLength(s[..|s| - 1], drop);
    }
  }

  lemma {:induction false} DedupDistinct<T(!new)>(s: seq<T>)
    ensures NoDuplicates(Dedup(s))
  {
    if s != [] {
      DedupDistinct(s[..|s| - 1]);
    }
  }

  lemma DedupStep<T(!new)>(s: seq<T>, x: T)
    ensures Dedup(s + [x]) == if x in Dedup(s) then Dedup(s) else Dedup(s) + [x]
  {
    InitOfAppend(s, x);
  }

  lemma {:induction false} DedupOfDistinct<T(!new)>(s: seq<T>)
    requires NoDuplicates(s)
    ensures Dedup(s) == s
  {
    if s != [] {
      DedupOfDistinct(s[..|s| - 1]);
    }
  }

  lemma WithoutStep<T(!new)>(s: seq<T>, x: T, drop: set<T>)
    ensures Without(s + [x], drop) == Without(s, drop) + if x in drop then [] else [x]
  {
    InitOfAppend(s, x);
  }

  lemma WithoutConcatStep<T(!new)>(a: seq<T>, b: seq<T>, x: T, drop: set<T>)
    requires Without(a + b, drop) == Without(a, drop) + Without(b, drop)
    ensures Without(a + (b + [x]), drop) == Without(a, drop) + Without(b + [x], drop)
  {
    WithoutStep(a + b, x, drop);
    WithoutStep(b, x, drop);
    Assoc(a, b, [x]);
    Assoc(Without(a, drop), Without(b, drop), if x in drop then [] else [x]);
  }

  lemma {:induction false} WithoutConcat<T(!new)>(a: seq<T>, b: seq<T>, drop: set<T>)
    ensures Without(a + b, drop) == Without(a, drop) + Without(b, drop)
  {
    if b == [] {
      Nil(a);
      Nil(Without(a, drop));
    } else {
      InitLast(b);
      WithoutConcat(a, b[..|b| - 1], drop);
      WithoutConcatStep(a, b[..|b| - 1], b[|b| - 1], drop);
    }
  }

  lemma {:induction false} WithoutDisjoint<T(!new)>(s: seq<T>, drop: set<T>)
    requires forall x :: x in s ==> x !in drop
    ensures Without(s, drop) == s
  {
    if s != [] {
      WithoutDisjoint(s[..|s| - 1], drop);
      InitLast(s);
    }
  }

  lemma {:induction false} WithoutAll<T(!new)>(s: seq<T>, drop: set<T>)
    requires forall x :: x in s ==> x in drop
    ensures Without(s, drop) == []
  {
    if s != [] {
      WithoutAll(s[..|s| - 1], drop);
      Nil(Without(s[..|s| - 1], drop));
    }
  }

  lemma WithoutTwiceStep<T(!new)>(s: seq<T>, x: T, a: set<T>, b: set<T>)
    requires a <= b && Without(Without(s, a), b) == Without(s, b)
    ensures Without(Without(s + [x], a), b) == Without(s + [x], b)
  {
    WithoutStep(s, x, a);
    WithoutStep(s, x, b);
    if x in a {
      Nil(Without(s, a));
      Nil(Without(s, b));
    } else {
      WithoutStep(Without(s, a), x, b);
    }
  }

  lemma {:induction false} WithoutTwice<T(!new)>(s: seq<T>, a: set<T>, b: set<T>)
    requires a <= b
    ensures Without(Without(s, a), b) == Without(s, b)
  {
    if s != [] {
      var init, x := s[..|s| - 1], s[|s| - 1];
      InitLast(s);
      WithoutTwice(init, a, b);
      WithoutTwiceStep(init, x, a, b);
    }
  }

  lemma {:induction false} SizeOfDistinct<T(!new)>(s: seq<T>)
    requires NoDuplicates(s)
    ensures |ToSet(s)| == |s|
  {
    if s != [] {
      var n := |s| - 1;
      SizeOfDistinct(s[..n]);
      InitLast(s);
      assert ToSet(s) == ToSet(s[..n]) + {s[n]};
    }
  }

  lemma {:induction false} SubsetOfSameSize<T>(a: set<T>, b: set<T>)
    requires a <= b && |a| == |b|
    ensures a == b
  {
    if x :| x in b && x !in a {
      SubsetSize(a, b - {x});
      assert false;
    }
  }

  lemma {:induction false} SubsetSize<T>(a: set<T>, b: set<T>)
    requires a <= b
    ensures |a| <= |b|
  {
    if x :| x in a {
      SubsetSize(a - {x}, b - {x});
    }
  }

  lemma WithoutDedupStep<T(!new)>(s: seq<T>, x: T, drop: set<T>)
    requires Without(Dedup(s), drop) == Dedup(Without(s, drop))
    ensures Without(Dedup(s + [x]), drop) == Dedup(Without(s + [x], drop))
  {
    var d, w := Dedup(s), Without(s, drop);
    DedupStep(s, x);
    WithoutStep(s, x, drop);
    WithoutStep(d, x, drop);
    Nil(w);
    Nil(Without(d, drop));
    DedupStep(w, x);
  }

  lemma {:induction false} WithoutDedup<T(!new)>(s: seq<T>, drop: set<T>)
    ensures Without(Dedup(s), drop) == Dedup(Without(s, drop))
  {
    if s != [] {
      var init, x := s[..|s| - 1], s[|s| - 1];
      InitLast(s);
      WithoutDedup(init, drop);
      WithoutDedupStep(init, x, drop);
    }
  }

  lemma DedupTwice<T(!new)>(s: seq<T>)
    ensures Dedup(Dedup(s)) == Dedup(s)
  {
    DedupDistinct(s);
    DedupOfDistinct(Dedup(s));
  }

  lemma DedupSameStep<T(!new)>(a: seq<T>, b: seq<T>, x: T)
    requires Dedup(a) == Dedup(b)
    ensures Dedup(a + [x]) == Dedup(b + [x])
  {
    DedupStep(a, x);
    DedupStep(b, x);
  }

  lemma {:induction false} DedupConcat<T(!new)>(a: seq<T>, b: seq<T>)
    ensures Dedup(Dedup(a) + b) == Dedup(a + b)
  {
    if b == [] {
      Nil(a);
      Nil(Dedup(a));
      DedupTwice(a);
    } else {
      var init, x := b[..|b| - 1], b[|b| - 1];
      InitLast(b);
      DedupConcat(a, init);
      DedupSameStep(Dedup(a) + init, a + init, x);
      Assoc(Dedup(a), init, [x]);
      Assoc(a, init, [x]);
    }
  }

  lemma {:induction false} WithoutSameIff<T(!new)>(s: seq<T>, drop: set<T>)
    ensures Without(s, drop) == s <==> forall x :: x in s ==> x !in drop
  {
    if forall x :: x in s ==> x !in drop {
      WithoutDisjoint(s, drop);
    }
  }
}
