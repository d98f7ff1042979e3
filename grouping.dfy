/** Grouping into a JavaScript object of arrays, as the screens write it:

      xs.forEach(x => {
        if (keep(x)) {
          if (!groups[key(x)]) groups[key(x)] = []
          groups[key(x)].push(val(x))
        }
      })

    The property names are kept in `keys` in order of first appearance (the
    order `Object.entries` lists string keys in). */
module Grouping {
  import opened Common

  /** The keys of the kept elements, in order, with repetitions. */
  function KeysOf<T>(xs: seq<T>, keep: T -> bool, key: T -> string): seq<string>
    decreases |xs|
  {
    if xs == [] then []
    else
      var last := |xs| - 1;
      KeysOf(xs[..last], keep, key) + (if keep(xs[last]) then [key(xs[last])] else [])
  }

  /** The values pushed under `k`: those of the kept elements with key `k`, in order. */
  function GroupValues<T, U>(xs: seq<T>, keep: T -> bool, key: T -> string, val: T -> U, k: string): seq<U>
    decreases |xs|
  {
    if xs == [] then []
    else
      var last := |xs| - 1;
      GroupValues(xs[..last], keep, key, val, k) + (if keep(xs[last]) && key(xs[last]) == k then [val(xs[last])] else [])
  }

  /** What the loop has built after the elements `prefix`. */
  ghost predicate GroupedSoFar<T, U>(prefix: seq<T>, keep: T -> bool, key: T -> string, val: T -> U,
                                     keys: seq<string>, groups: map<string, seq<U>>) {
    && (forall k :: k in groups <==> k in keys)
    && (forall i, j :: 0 <= i < j < |keys| ==> keys[i] != keys[j])
    && (forall k :: k in groups ==> groups[k] == GroupValues(prefix, keep, key, val, k))
    && (forall k :: k in keys <==> k in KeysOf(prefix, keep, key))
  }

  /** The keys and groups after the elements `xs`, one element at a time. */
  function GroupState<T, U>(xs: seq<T>, keep: T -> bool, key: T -> string, val: T -> U): (seq<string>, map<string, seq<U>>)
    decreases |xs|
  {
    if xs == [] then ([], map[])
    else
      var (keys, groups) := GroupState(xs[..|xs| - 1], keep, key, val);
      var x := xs[|xs| - 1];
      if !keep(x) then (keys, groups)
      else
        var k := key(x);
        (if k in groups then keys else keys + [k], groups[k := (if k in groups then groups[k] else []) + [val(x)]])
  }

  /** The state after `xs` is what the grouping promises. */
  lemma {:induction false} GroupStateSound<T, U>(xs: seq<T>, keep: T -> bool, key: T -> string, val: T -> U)
    ensures GroupedSoFar(xs, keep, key, val, GroupState(xs, keep, key, val).0, GroupState(xs, keep, key, val).1)
    decreases |xs|
  {
    if xs != [] {
      var init, x := xs[..|xs| - 1], xs[|xs| - 1];
      assert xs == init + [x];
      GroupStateSound(init, keep, key, val);
      var (keys, groups) := GroupState(init, keep, key, val);
      if keep(x) {
        var k := key(x);
        GroupStepKept(init, x, keep, key, val, keys, groups,
          if k in groups then keys else keys + [k], groups[k := (if k in groups then groups[k] else []) + [val(x)]]);
      } else {
        GroupStepSkipped(init, x, keep, key, val, keys, groups);
      }
    }
  }

  /** The grouping loop. Each key appears once, the keys are exactly those of
      the kept elements, in order of first appearance, and each group holds
      the values of its elements in order. */
  method GroupBy<T, U>(xs: seq<T>, keep: T -> bool, key: T -> string, val: T -> U)
    returns (keys: seq<string>, groups: map<string, seq<U>>)
    ensures forall i, j :: 0 <= i < j < |keys| ==> keys[i] != keys[j]
    ensures forall k :: k in groups <==> k in keys
    ensures forall k :: k in keys <==> k in KeysOf(xs, keep, key)
    ensures forall k :: k in groups ==> groups[k] == GroupValues(xs, keep, key, val, k)
    ensures FirstAppearanceOrder(keys, KeysOf(xs, keep, key))
  {
    keys, groups := [], map[];
    var n := 0;
    while n < |xs|
      invariant 0 <= n <= |xs|
      invariant (keys, groups) == GroupState(xs[..n], keep, key, val)
    {
      var x := xs[n];
      assert xs[..n + 1][..n] == xs[..n];
      if keep(x) {
        var k := key(x);
        if k !in groups {
          keys := keys + [k];
        }
        groups := groups[k := (if k in groups then groups[k] else []) + [val(x)]];
      }
      n := n + 1;
    }
    assert xs[..n] == xs;
    GroupStateSound(xs, keep, key, val);
    GroupStateOrder(xs, keep, key, val);
  }

  /** `keys` lists distinct values of `ks` in order of first appearance:
      wherever a later one occurs in `ks`, every earlier one has occurred before. */
  predicate FirstAppearanceOrder(keys: seq<string>, ks: seq<string>) {
    forall i, j, m :: 0 <= i < j < |keys| && 0 <= m < |ks| && ks[m] == keys[j] ==> keys[i] in ks[..m]
  }

  /** The keys come in order of first appearance: wherever a later key
      occurs among the kept elements' keys, every earlier key has occurred
      before it. */
  lemma {:induction false} GroupStateOrder<T, U>(xs: seq<T>, keep: T -> bool, key: T -> string, val: T -> U)
    ensures FirstAppearanceOrder(GroupState(xs, keep, key, val).0, KeysOf(xs, keep, key))
    decreases |xs|
  {
    if xs != [] {
      var init, x := xs[..|xs| - 1], xs[|xs| - 1];
      GroupStateOrder(init, keep, key, val);
      GroupStateSound(init, keep, key, val);
      var keys0, groups0 := GroupState(init, keep, key, val).0, GroupState(init, keep, key, val).1;
      var ks0 := KeysOf(init, keep, key);
      var keys, ks := GroupState(xs, keep, key, val).0, KeysOf(xs, keep, key);
      assert FirstAppearanceOrder(keys0, ks0);
      if !keep(x) {
        assert keys == keys0 && ks == ks0;
      } else {
        var k := key(x);
        assert ks == ks0 + [k];
        assert k in groups0 <==> k in ks0;
        assert keys == if k in groups0 then keys0 else keys0 + [k];
        forall i, j, m | 0 <= i < j < |keys| && 0 <= m < |ks| && ks[m] == keys[j]
          ensures keys[i] in ks[..m]
        {
          assert keys[i] == keys0[i];
          assert keys0[i] in ks0;
          if m < |ks0| {
            assert ks[m] == ks0[m] && ks[..m] == ks0[..m];
            if j < |keys0| {
              assert keys[j] == keys0[j];
              assert keys0[i] in ks0[..m];
            }
          } else {
            assert ks[..m] == ks0;
          }
        }
      }
    }
  }

  /** Keeping every element, the keys are the elements' keys one for one. */
  lemma {:induction false} KeysOfAll<T>(xs: seq<T>, keep: T -> bool, key: T -> string)
    requires forall x :: keep(x)
    ensures |KeysOf(xs, keep, key)| == |xs|
    ensures forall m :: 0 <= m < |xs| ==> KeysOf(xs, keep, key)[m] == key(xs[m])
    decreases |xs|
  {
    if xs != [] {
      KeysOfAll(xs[..|xs| - 1], keep, key);
    }
  }

  /** A pass of the loop over an element that is not kept changes nothing. */
  lemma GroupStepSkipped<T, U>(prefix: seq<T>, x: T, keep: T -> bool, key: T -> string, val: T -> U,
                               keys: seq<string>, groups: map<string, seq<U>>)
    requires GroupedSoFar(prefix, keep, key, val, keys, groups) && !keep(x)
    ensures GroupedSoFar(prefix + [x], keep, key, val, keys, groups)
  {
    var s := prefix + [x];
    assert s[..|s| - 1] == prefix && s[|s| - 1] == x;
    assert KeysOf(s, keep, key) == KeysOf(prefix, keep, key);
    forall k | k in groups
      ensures groups[k] == GroupValues(s, keep, key, val, k)
    {
    }
  }

  /** A pass over a kept element: a new key is listed, and the value is
      pushed onto its key's group. */
  lemma GroupStepKept<T, U>(prefix: seq<T>, x: T, keep: T -> bool, key: T -> string, val: T -> U,
                            keys: seq<string>, groups: map<string, seq<U>>,
                            keys': seq<string>, groups': map<string, seq<U>>)
    requires GroupedSoFar(prefix, keep, key, val, keys, groups) && keep(x)
    requires keys' == if key(x) in groups then keys else keys + [key(x)]
    requires groups' == groups[key(x) := (if key(x) in groups then groups[key(x)] else []) + [val(x)]]
    ensures GroupedSoFar(prefix + [x], keep, key, val, keys', groups')
  {
    var s := prefix + [x];
    assert s[..|s| - 1] == prefix && s[|s| - 1] == x;
    assert KeysOf(s, keep, key) == KeysOf(prefix, keep, key) + [key(x)];
    assert forall i, j :: 0 <= i < j < |keys'| ==> keys'[i] != keys'[j];
    ValuesStep(prefix, x, keep, key, val, groups);
  }

  lemma ValuesStep<T, U>(prefix: seq<T>, x: T, keep: T -> bool, key: T -> string, val: T -> U, groups: map<string, seq<U>>)
    requires keep(x)
    requires forall k :: k in groups ==> groups[k] == GroupValues(prefix, keep, key, val, k)
    requires key(x) !in groups ==> key(x) !in KeysOf(prefix, keep, key)
    ensures var k := key(x);
      var g := groups[k := (if k in groups then groups[k] else []) + [val(x)]];
      forall k' :: k' in g ==> g[k'] == GroupValues(prefix + [x], keep, key, val, k')
  {
    var s := prefix + [x];
    assert s[..|s| - 1] == prefix && s[|s| - 1] == x;
    if key(x) !in groups {
      ValuesAbsent(prefix, keep, key, val, key(x));
    }
  }

  /** A key no kept element has so far has no values so far. */
  lemma {:induction false} ValuesAbsent<T, U>(xs: seq<T>, keep: T -> bool, key: T -> string, val: T -> U, k: string)
    requires k !in KeysOf(xs, keep, key)
    ensures GroupValues(xs, keep, key, val, k) == []
    decreases |xs|
  {
    if xs != [] {
      ValuesAbsent(xs[..|xs| - 1], keep, key, val, k);
    }
  }

  /** A kept element's value is in the group of its key. */
  lemma {:induction false} GroupValuesHas<T, U>(xs: seq<T>, keep: T -> bool, key: T -> string, val: T -> U, i: nat)
    requires i < |xs| && keep(xs[i])
    ensures val(xs[i]) in GroupValues(xs, keep, key, val, key(xs[i]))
    ensures key(xs[i]) in KeysOf(xs, keep, key)
    decreases |xs|
  {
    var last := |xs| - 1;
    if i < last {
      assert xs[..last][i] == xs[i];
      GroupValuesHas(xs[..last], keep, key, val, i);
    }
  }

  /** Every value of a group comes from a kept element with that key. */
  lemma {:induction false} GroupValuesFrom<T, U>(xs: seq<T>, keep: T -> bool, key: T -> string, val: T -> U, k: string, v: U)
    requires v in GroupValues(xs, keep, key, val, k)
    ensures exists i :: 0 <= i < |xs| && keep(xs[i]) && key(xs[i]) == k && val(xs[i]) == v
    decreases |xs|
  {
    var last := |xs| - 1;
    if v in GroupValues(xs[..last], keep, key, val, k) {
      GroupValuesFrom(xs[..last], keep, key, val, k, v);
      var i :| 0 <= i < last && keep(xs[..last][i]) && key(xs[..last][i]) == k && val(xs[..last][i]) == v;
      assert xs[..last][i] == xs[i];
    } else {
      assert keep(xs[last]) && key(xs[last]) == k && val(xs[last]) == v;
    }
  }

  /** A key is listed exactly when some kept element has it. */
  lemma {:induction false} KeysOfMembers<T>(xs: seq<T>, keep: T -> bool, key: T -> string, k: string)
    ensures k in KeysOf(xs, keep, key) <==> exists i :: 0 <= i < |xs| && keep(xs[i]) && key(xs[i]) == k
    decreases |xs|
  {
    if xs != [] {
      var last := |xs| - 1;
      var init, x := xs[..last], xs[last];
      assert KeysOf(xs, keep, key) == KeysOf(init, keep, key) + (if keep(x) then [key(x)] else []);
      KeysOfMembers(init, keep, key, k);
      assert forall i :: 0 <= i < last ==> init[i] == xs[i];
      if exists i :: 0 <= i < |xs| && keep(xs[i]) && key(xs[i]) == k {
        var i :| 0 <= i < |xs| && keep(xs[i]) && key(xs[i]) == k;
        if i < last {
          assert keep(init[i]) && key(init[i]) == k;
        }
      }
    }
  }

  /** One key is listed per kept element. */
  lemma {:induction false} KeysOfCount<T>(xs: seq<T>, keep: T -> bool, key: T -> string)
    ensures |KeysOf(xs, keep, key)| == Count(xs, keep)
    decreases |xs|
  {
    if xs != [] {
      var last := |xs| - 1;
      KeysOfCount(xs[..last], keep, key);
      CountSnoc(xs[..last], xs[last], keep);
      assert xs[..last] + [xs[last]] == xs;
    }
  }

  /** Kept, with key `k`. */
  function KeptWith<T>(keep: T -> bool, key: T -> string, k: string): T -> bool {
    x => keep(x) && key(x) == k
  }

  /** A group holds one value per kept element with its key. */
  lemma {:induction false} GroupValuesCount<T, U>(xs: seq<T>, keep: T -> bool, key: T -> string, val: T -> U, k: string)
    ensures |GroupValues(xs, keep, key, val, k)| == Count(xs, KeptWith(keep, key, k))
    decreases |xs|
  {
    if xs != [] {
      var last := |xs| - 1;
      GroupValuesCount(xs[..last], keep, key, val, k);
      CountSnoc(xs[..last], xs[last], KeptWith(keep, key, k));
      assert xs[..last] + [xs[last]] == xs;
    }
  }

  /** The groups partition the kept elements: their sizes add up to the number
      of kept elements. */
  lemma {:induction false} GroupSizes<T, U>(xs: seq<T>, keep: T -> bool, key: T -> string, val: T -> U, keys: seq<string>)
    requires forall i, j :: 0 <= i < j < |keys| ==> keys[i] != keys[j]
    requires forall k :: k in keys <==> k in KeysOf(xs, keep, key)
    ensures SumSizes(xs, keep, key, val, keys) == |KeysOf(xs, keep, key)|
    decreases |xs|
  {
    if xs == [] {
      SumSizesNone(keep, key, val, keys);
    } else {
      var last := |xs| - 1;
      var init, x := xs[..last], xs[last];
      var initKeys := KeysOf(init, keep, key);
      assert KeysOf(xs, keep, key) == initKeys + (if keep(x) then [key(x)] else []);
      if keep(x) && key(x) !in initKeys {
        assert key(x) in KeysOf(xs, keep, key);
        var j :| 0 <= j < |keys| && keys[j] == key(x);
        var rest := keys[..j] + keys[j + 1..];
        RemoveKey(keys, j, initKeys, key(x));
        GroupSizes(init, keep, key, val, rest);
        SumSizesNewKey(init, x, keep, key, val, keys[..j], keys[j + 1..]);
        assert init + [x] == xs;
      } else {
        assert forall k :: k in keys <==> k in initKeys;
        GroupSizes(init, keep, key, val, keys);
        SumSizesStep(init, x, keep, key, val, keys);
        assert xs == init + [x];
      }
    }
  }

  /** Appending an element with a key not seen before adds its key's group,
      of size one, to the groups of the other keys. */
  lemma SumSizesNewKey<T, U>(init: seq<T>, x: T, keep: T -> bool, key: T -> string, val: T -> U,
                             pre: seq<string>, post: seq<string>)
    requires keep(x) && key(x) !in KeysOf(init, keep, key) && key(x) !in pre + post
    ensures SumSizes(init + [x], keep, key, val, pre + [key(x)] + post)
      == SumSizes(init, keep, key, val, pre + post) + 1
  {
    var xs := init + [x];
    assert xs[..|xs| - 1] == init && xs[|xs| - 1] == x;
    ValuesAbsent(init, keep, key, val, key(x));
    assert |GroupValues(xs, keep, key, val, key(x))| == 1;
    SumSizesSplit(xs, keep, key, val, pre, key(x), post);
    SumSizesOthers(init, x, keep, key, val, pre + post);
    SumSizesConcat(init, keep, key, val, pre, post);
    SumSizesConcat(xs, keep, key, val, pre, post);
  }

  /** Before any element, every group is empty. */
  lemma {:induction false} SumSizesNone<T, U>(keep: T -> bool, key: T -> string, val: T -> U, keys: seq<string>)
    ensures SumSizes([], keep, key, val, keys) == 0
  {
    if keys != [] {
      SumSizesNone(keep, key, val, keys[1..]);
    }
  }

  /** Taking a key out of a list of distinct keys. */
  lemma RemoveKey(keys: seq<string>, j: nat, ks: seq<string>, k: string)
    requires j < |keys| && keys[j] == k && k !in ks
    requires forall a, b :: 0 <= a < b < |keys| ==> keys[a] != keys[b]
    requires forall m :: m in keys <==> m in ks + [k]
    ensures keys == keys[..j] + [k] + keys[j + 1..]
    ensures var rest := keys[..j] + keys[j + 1..];
      && (forall a, b :: 0 <= a < b < |rest| ==> rest[a] != rest[b])
      && (forall m :: m in rest <==> m in ks)
  {
    assert keys == keys[..j] + [k] + keys[j + 1..];
    RemoveKeyMembers(keys, j, ks, k);
    RemoveKeyDistinct(keys, j);
  }

  /** Dropping position `j` of a list whose elements are `ks` and `k`, with
      `k` at `j` only, leaves the elements of `ks`. */
  lemma RemoveKeyMembers(keys: seq<string>, j: nat, ks: seq<string>, k: string)
    requires j < |keys| && keys[j] == k && k !in ks
    requires forall a, b :: 0 <= a < b < |keys| ==> keys[a] != keys[b]
    requires forall m :: m in keys <==> m in ks + [k]
    ensures forall m :: m in keys[..j] + keys[j + 1..] <==> m in ks
  {
    var rest := keys[..j] + keys[j + 1..];
    assert forall i :: 0 <= i < j ==> rest[i] == keys[i];
    assert forall i :: j <= i < |rest| ==> rest[i] == keys[i + 1];
    forall m
      ensures m in rest <==> m in ks
    {
      if m in rest {
        var i :| 0 <= i < |rest| && rest[i] == m;
        if i < j { assert keys[i] == m; } else { assert keys[i + 1] == m; }
        assert m in ks + [k];
      }
      if m in ks {
        assert m in ks + [k];
        var i :| 0 <= i < |keys| && keys[i] == m;
        if i < j { assert rest[i] == m; } else { assert rest[i - 1] == m; }
      }
    }
  }

  /** Dropping one position keeps the elements distinct. */
  lemma RemoveKeyDistinct(keys: seq<string>, j: nat)
    requires j < |keys|
    requires forall a, b :: 0 <= a < b < |keys| ==> keys[a] != keys[b]
    ensures var rest := keys[..j] + keys[j + 1..];
      forall a, b :: 0 <= a < b < |rest| ==> rest[a] != rest[b]
  {
    var rest := keys[..j] + keys[j + 1..];
    forall a, b | 0 <= a < b < |rest|
      ensures rest[a] != rest[b]
    {
      var a' := if a < j then a else a + 1;
      var b' := if b < j then b else b + 1;
      assert rest[a] == keys[a'] && rest[b] == keys[b'];
    }
  }

  /** The total size of the groups of `keys`. */
  function SumSizes<T, U>(xs: seq<T>, keep: T -> bool, key: T -> string, val: T -> U, keys: seq<string>): nat {
    if keys == [] then 0
    else |GroupValues(xs, keep, key, val, keys[0])| + SumSizes(xs, keep, key, val, keys[1..])
  }

  lemma {:induction false} SumSizesConcat<T, U>(xs: seq<T>, keep: T -> bool, key: T -> string, val: T -> U, a: seq<string>, b: seq<string>)
    ensures SumSizes(xs, keep, key, val, a + b) == SumSizes(xs, keep, key, val, a) + SumSizes(xs, keep, key, val, b)
  {
    if a == [] {
      assert a + b == b;
    } else {
      assert (a + b)[1..] == a[1..] + b;
      SumSizesConcat(xs, keep, key, val, a[1..], b);
    }
  }

  lemma SumSizesSplit<T, U>(xs: seq<T>, keep: T -> bool, key: T -> string, val: T -> U, a: seq<string>, k: string, b: seq<string>)
    ensures SumSizes(xs, keep, key, val, a + [k] + b)
      == SumSizes(xs, keep, key, val, a) + |GroupValues(xs, keep, key, val, k)| + SumSizes(xs, keep, key, val, b)
  {
    SumSizesConcat(xs, keep, key, val, a + [k], b);
    SumSizesConcat(xs, keep, key, val, a, [k]);
    assert [k][1..] == [];
  }

  /** Appending an element whose key is not among `keys` leaves their sizes. */
  lemma {:induction false} SumSizesOthers<T, U>(xs: seq<T>, x: T, keep: T -> bool, key: T -> string, val: T -> U, keys: seq<string>)
    requires !keep(x) || key(x) !in keys
    ensures SumSizes(xs + [x], keep, key, val, keys) == SumSizes(xs, keep, key, val, keys)
  {
    var s := xs + [x];
    assert s[..|s| - 1] == xs && s[|s| - 1] == x;
    if keys != [] {
      SumSizesOthers(xs, x, keep, key, val, keys[1..]);
    }
  }

  /** Appending an element adds one to the total when its key is listed once. */
  lemma {:induction false} SumSizesStep<T, U>(xs: seq<T>, x: T, keep: T -> bool, key: T -> string, val: T -> U, keys: seq<string>)
    requires forall i, j :: 0 <= i < j < |keys| ==> keys[i] != keys[j]
    requires keep(x) ==> key(x) in keys
    ensures SumSizes(xs + [x], keep, key, val, keys) == SumSizes(xs, keep, key, val, keys) + (if keep(x) then 1 else 0)
  {
    var s := xs + [x];
    assert s[..|s| - 1] == xs && s[|s| - 1] == x;
    if keys != [] {
      if keep(x) && key(x) == keys[0] {
        assert key(x) !in keys[1..];
        SumSizesOthers(xs, x, keep, key, val, keys[1..]);
      } else {
        SumSizesStep(xs, x, keep, key, val, keys[1..]);
      }
    }
  }
}
