/** Values shared by the whole model: PHP's "value or null", results that
    carry an exception, and PHP arrays used as ordered dictionaries. */
module Base {

  /** Database ids and PHP integer array keys; they are never negative. */
  type Id = nat

  /** A value or PHP's `null`. */
  datatype Option<+T> = None | Some(value: T)

  /** A value, or the exception that aborted the computation. */
  datatype Result<+T, +E> = Ok(value: T) | Err(error: E)

  /** Completion of a `void` method: it returned, or it threw. */
  datatype Outcome<+E> = Pass | Fail(error: E)

  /** A PHP array used as a dictionary. `keys` lists the keys in insertion
      order, which is the order `foreach` visits them; `vals` holds the
      value of each key. */
  datatype Assoc<K(!new), V> = Assoc(keys: seq<K>, vals: map<K, V>) {

    /** No key is listed twice, and the listed keys are exactly the keys
        that have a value. */
    ghost predicate Valid() {
      && NoDuplicates(keys)
      && (forall k :: k in vals <==> k in keys)
    }
  }

  /** No element occurs twice: each one differs from all before it. */
  predicate NoDuplicates<T(==)>(s: seq<T>) {
    s == [] || (NoDuplicates(s[..|s| - 1]) && !Occurs(s[..|s| - 1], s[|s| - 1]))
  }

  /** `x` is an element of `s`, found from the end. */
  predicate Occurs<T(==)>(s: seq<T>, x: T) {
    s != [] && (s[|s| - 1] == x || Occurs(s[..|s| - 1], x))
  }

  lemma {:induction false} OccursIff<T>(s: seq<T>, x: T)
    ensures Occurs(s, x) <==> x in s
  {
    if s != [] {
      var init := s[..|s| - 1];
      OccursIff(init, x);
      assert s == init + [s[|s| - 1]];
    }
  }

  /** Without duplicates, different positions hold different elements. */
  lemma {:induction false} NoDuplicatesAt<T>(s: seq<T>, i: nat, j: nat)
    requires NoDuplicates(s) && i < j < |s|
    ensures s[i] != s[j]
  {
    var init := s[..|s| - 1];
    assert init[i] == s[i];
    if j < |s| - 1 {
      assert init[j] == s[j];
      NoDuplicatesAt(init, i, j);
    } else {
      OccursIff(init, s[j]);
    }
  }

  /** The list holds no duplicate exactly when different positions hold
      different elements. */
  lemma {:induction false} NoDuplicatesIff<T>(s: seq<T>)
    ensures NoDuplicates(s) <==> forall i, j :: 0 <= i < j < |s| ==> s[i] != s[j]
  {
    if NoDuplicates(s) {
      forall i, j | 0 <= i < j < |s| ensures s[i] != s[j] {
        NoDuplicatesAt(s, i, j);
      }
    }
    if s != [] && forall i, j :: 0 <= i < j < |s| ==> s[i] != s[j] {
      var init := s[..|s| - 1];
      forall i, j | 0 <= i < j < |init| ensures init[i] != init[j] {
        assert init[i] == s[i] && init[j] == s[j];
      }
      NoDuplicatesIff(init);
      OccursIff(init, s[|s| - 1]);
      forall i | 0 <= i < |init| ensures init[i] != s[|s| - 1] {
        assert init[i] == s[i];
      }
    }
  }

  /** Appending an element not yet listed keeps the list free of duplicates. */
  lemma NoDuplicatesSnoc<T>(s: seq<T>, x: T)
    requires NoDuplicates(s) && x !in s
    ensures NoDuplicates(s + [x])
  {
    OccursIff(s, x);
    assert (s + [x])[..|s|] == s;
  }

  /** The empty array `[]`. */
  function EmptyAssoc<K(!new), V>(): (r: Assoc<K, V>)
    ensures r.Valid() && r.keys == [] && r.vals == map[]
  {
    Assoc([], map[])
  }

  /** `$a[$k] = $v`: a key that is already present keeps its position and
      takes the new value; a new key is appended at the end. */
  function Put<K(!new), V>(a: Assoc<K, V>, k: K, v: V): (r: Assoc<K, V>)
    requires a.Valid()
    ensures r.Valid()
    ensures r.vals == a.vals[k := v]
    ensures r.keys == if k in a.vals then a.keys else a.keys + [k]
  {
    if k in a.vals then Assoc(a.keys, a.vals[k := v])
    else
      NoDuplicatesSnoc(a.keys, k);
      Assoc(a.keys + [k], a.vals[k := v])
  }

  /** A second `Put` of the same key overrides the first. */
  lemma PutTwice<K(!new), V>(a: Assoc<K, V>, k: K, v: V, w: V)
    requires a.Valid()
    ensures Put(Put(a, k, v), k, w) == Put(a, k, w)
  {
    assert a.vals[k := v][k := w] == a.vals[k := w];
  }

  /** Putting a key that is not present appends it. */
  lemma PutNewKey<K(!new), V>(a: Assoc<K, V>, k: K, v: V)
    requires a.Valid() && k !in a.keys
    ensures Put(a, k, v) == Assoc(a.keys + [k], a.vals[k := v])
  {
  }

  /** The array built by `$a[$ks[i]] = $vs[i]` for each `i` in order,
      starting from `[]`. */
  function Assemble<K(!new), V>(ks: seq<K>, vs: seq<V>): (r: Assoc<K, V>)
    requires |ks| == |vs|
    ensures r.Valid()
  {
    if ks == [] then EmptyAssoc()
    else Put(Assemble(ks[..|ks| - 1], vs[..|vs| - 1]), ks[|ks| - 1], vs[|vs| - 1])
  }

  /** Assembling one more pair is one more `Put`. */
  lemma AssembleSnoc<K(!new), V>(ks: seq<K>, vs: seq<V>, k: K, v: V)
    requires |ks| == |vs|
    ensures Assemble(ks + [k], vs + [v]) == Put(Assemble(ks, vs), k, v)
  {
    assert (ks + [k])[..|ks|] == ks;
    assert (vs + [v])[..|vs|] == vs;
  }

  /** The keys of the assembled array are the given keys. */
  lemma {:induction false} AssembleKeys<K(!new), V>(ks: seq<K>, vs: seq<V>, k: K)
    requires |ks| == |vs|
    ensures k in Assemble(ks, vs).vals <==> k in ks
  {
    if ks != [] {
      var n := |ks|;
      AssembleKeys(ks[..n - 1], vs[..n - 1], k);
      SplitLast(ks);
    }
  }

  /** Last write wins: a key takes the value of its last occurrence. */
  lemma {:induction false} AssembleLastWins<K(!new), V>(ks: seq<K>, vs: seq<V>, i: nat)
    requires |ks| == |vs| && i < |ks|
    requires forall j :: i < j < |ks| ==> ks[j] != ks[i]
    ensures ks[i] in Assemble(ks, vs).vals && Assemble(ks, vs).vals[ks[i]] == vs[i]
  {
    var n := |ks|;
    if i < n - 1 {
      var ks', vs' := ks[..n - 1], vs[..n - 1];
      LaterKeysOfPrefix(ks, ks', i);
      AssembleLastWins(ks', vs', i);
      assert vs'[i] == vs[i];
      AssembleOtherKey(ks, vs, ks[i]);
    } else {
      AssembleLastKey(ks, vs);
    }
  }

  /** The later keys of a prefix are later keys of the whole list. */
  lemma LaterKeysOfPrefix<K>(ks: seq<K>, ks': seq<K>, i: nat)
    requires ks != [] && ks' == ks[..|ks| - 1] && i < |ks'|
    requires forall j :: i < j < |ks| ==> ks[j] != ks[i]
    ensures ks'[i] == ks[i]
    ensures forall j :: i < j < |ks'| ==> ks'[j] != ks'[i]
  {
  }

  /** The last key takes the last value. */
  lemma AssembleLastKey<K(!new), V>(ks: seq<K>, vs: seq<V>)
    requires |ks| == |vs| && ks != []
    ensures ks[|ks| - 1] in Assemble(ks, vs).vals && Assemble(ks, vs).vals[ks[|ks| - 1]] == vs[|vs| - 1]
  {
  }

  /** Assembling leaves a key other than the last one as the prefix has it. */
  lemma AssembleOtherKey<K(!new), V>(ks: seq<K>, vs: seq<V>, k: K)
    requires |ks| == |vs| && ks != [] && k != ks[|ks| - 1]
    requires k in Assemble(ks[..|ks| - 1], vs[..|vs| - 1]).vals
    ensures k in Assemble(ks, vs).vals
    ensures Assemble(ks, vs).vals[k] == Assemble(ks[..|ks| - 1], vs[..|vs| - 1]).vals[k]
  {
  }

  /** With distinct keys, the assembled array lists the keys in the given
      order. */
  lemma {:induction false} AssembleDistinctKeys<K(!new), V>(ks: seq<K>, vs: seq<V>)
    requires |ks| == |vs| && NoDuplicates(ks)
    ensures Assemble(ks, vs).keys == ks
  {
    if ks != [] {
      var n := |ks|;
      var ks', vs' := ks[..n - 1], vs[..n - 1];
      AssembleDistinctKeys(ks', vs');
      OccursIff(ks', ks[n - 1]);
      AssembleNewKey(ks', vs', ks[n - 1], vs[n - 1]);
      SplitLast(ks);
      SplitLast(vs);
    }
  }

  /** Assembling one more pair whose key is new appends the key. */
  lemma AssembleNewKey<K(!new), V>(ks: seq<K>, vs: seq<V>, k: K, v: V)
    requires |ks| == |vs| && Assemble(ks, vs).keys == ks && k !in ks
    ensures Assemble(ks + [k], vs + [v]).keys == ks + [k]
  {
    AssembleSnoc(ks, vs, k, v);
    AssembleKeys(ks, vs, k);
  }

  /** With distinct keys, the assembled array lists the keys in the given
      order, each with its own value. */
  lemma AssembleDistinct<K(!new), V>(ks: seq<K>, vs: seq<V>)
    requires |ks| == |vs|
    requires forall i, j :: 0 <= i < j < |ks| ==> ks[i] != ks[j]
    ensures Assemble(ks, vs).keys == ks
    ensures forall i :: 0 <= i < |ks| ==> Assemble(ks, vs).vals[ks[i]] == vs[i]
  {
    NoDuplicatesIff(ks);
    AssembleDistinctKeys(ks, vs);
    forall i | 0 <= i < |ks| ensures Assemble(ks, vs).vals[ks[i]] == vs[i] {
      AssembleLastWins(ks, vs, i);
    }
  }

  /** Two arrays with the same keys in the same order keep them so when the
      same key is put in both. */
  lemma PutSameShape<K(!new), V, W>(a: Assoc<K, V>, b: Assoc<K, W>, k: K, v: V, w: W)
    requires a.Valid() && b.Valid() && a.keys == b.keys && a.vals.Keys == b.vals.Keys
    ensures Put(a, k, v).keys == Put(b, k, w).keys && Put(a, k, v).vals.Keys == Put(b, k, w).vals.Keys
  {
  }

  /** The elements of `xs` in the order they first appear, each once. */
  function FirstAppearances<T(==,!new)>(xs: seq<T>): (r: seq<T>)
    ensures forall x :: x in r <==> x in xs
  {
    if xs == [] then []
    else
      var d := FirstAppearances(xs[..|xs| - 1]);
      SplitLast(xs);
      if xs[|xs| - 1] in d then d else d + [xs[|xs| - 1]]
  }

  /** Each element is listed once, and an element listed before another
      occurs in `xs` before every occurrence of the other. */
  lemma {:induction false} FirstAppearancesOrder<T(!new)>(xs: seq<T>)
    ensures NoDuplicates(FirstAppearances(xs))
    ensures var r := FirstAppearances(xs);
            forall i, j, k :: 0 <= i < j < |r| && 0 <= k < |xs| && xs[k] == r[j] ==> r[i] in xs[..k]
  {
    if xs != [] {
      var d := FirstAppearances(xs[..|xs| - 1]);
      FirstAppearancesOrder(xs[..|xs| - 1]);
      if xs[|xs| - 1] !in d {
        NoDuplicatesSnoc(d, xs[|xs| - 1]);
      }
    }
    var r := FirstAppearances(xs);
    forall i, j, k | 0 <= i < j < |r| && 0 <= k < |xs| && xs[k] == r[j] ensures r[i] in xs[..k] {
      FirstAppearanceBefore(xs, i, j, k);
    }
  }

  lemma {:induction false} FirstAppearanceBefore<T(!new)>(xs: seq<T>, i: nat, j: nat, k: nat)
    requires i < j < |FirstAppearances(xs)| && k < |xs| && xs[k] == FirstAppearances(xs)[j]
    ensures FirstAppearances(xs)[i] in xs[..k]
  {
    var n := |xs| - 1;
    var init, x := xs[..n], xs[n];
    var d := FirstAppearances(init);
    var r := FirstAppearances(xs);
    assert r[i] == d[i] && d[i] in d;
    if k < n {
      assert xs[k] == init[k] && xs[..k] == init[..k];
      if j < |d| {
        assert r[j] == d[j];
        FirstAppearanceBefore(init, i, j, k);
      } else {
        assert false;
      }
    } else {
      assert xs[..k] == init;
    }
  }

  /** A non-empty list is its prefix and its last element. */
  lemma SplitLast<T>(s: seq<T>)
    requires s != []
    ensures s == s[..|s| - 1] + [s[|s| - 1]]
  {
  }

  /** A prefix one element longer. */
  lemma PrefixSnoc<T>(s: seq<T>, i: nat)
    requires i < |s|
    ensures s[..i + 1] == s[..i] + [s[i]]
  {
  }

  /** A slice of a suffix is a slice of the whole list. */
  lemma SliceOfSuffix<T>(s: seq<T>, d: nat, a: nat, b: nat)
    requires d <= |s| && a <= b <= |s| - d
    ensures s[d..][a..b] == s[d + a..d + b]
    ensures s[d..][a..] == s[d + a..]
  {
  }

  /** Concatenation is associative. */
  lemma AppendAssoc<T>(a: seq<T>, b: seq<T>, c: seq<T>)
    ensures (a + b) + c == a + (b + c)
  {
  }

  /** The values of `a` in iteration order. */
  function Values<K(!new), V>(a: Assoc<K, V>): (r: seq<V>)
    requires a.Valid()
    ensures |r| == |a.keys|
    ensures forall i :: 0 <= i < |a.keys| ==> r[i] == a.vals[a.keys[i]]
  {
    seq(|a.keys|, i requires 0 <= i < |a.keys| => a.vals[a.keys[i]])
  }
}
