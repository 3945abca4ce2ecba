/**
 * The extras an Intent is read for (component/bundle/Extra), and the
 * finalizer every lifecycle method's bag goes through before it is written
 * out: extras with the same key are merged into the first one, and strings
 * that are merely extra keys are dropped.
 */
module Extras {
  import opened Strings

  /** An intent extra: its key and its value type (empty when unknown). */
  datatype Extra = Extra(key: string, valueType: string)

  /** Extra.setValueType on the list element: the key stays, the type is replaced. */
  function WithValueType(e: Extra, valueType: string): (r: Extra)
    ensures r.key == e.key && r.valueType == valueType
  {
    e.(valueType := valueType)
  }

  function Keys(extras: seq<Extra>): set<string> {
    set e | e in extras :: e.key
  }

  predicate UniqueKeys(extras: seq<Extra>) {
    forall i, j :: 0 <= i < j < |extras| ==> extras[i].key != extras[j].key
  }

  /** The extras whose key is not `key`, in their order. */
  function WithoutKey(extras: seq<Extra>, key: string): (r: seq<Extra>)
    ensures |r| <= |extras|
  {
    if extras == [] then []
    else if extras[0].key == key then WithoutKey(extras[1..], key)
    else [extras[0]] + WithoutKey(extras[1..], key)
  }

  /**
   * The type the first extra with `key` ends up with: its own type unless
   * that is empty, else the first non-empty type among the later extras
   * with the same key, else empty.
   */
  function MergedType(valueType: string, rest: seq<Extra>, key: string): string
    decreases |rest|
  {
    if valueType != "" || rest == [] then valueType
    else MergedType(if rest[0].key == key then rest[0].valueType else valueType, rest[1..], key)
  }

  /** The first non-empty type among the extras with `key`, or empty. */
  function TypeOf(extras: seq<Extra>, key: string): string {
    if extras == [] then ""
    else if extras[0].key == key && extras[0].valueType != "" then extras[0].valueType
    else TypeOf(extras[1..], key)
  }

  /** The keys in order of first occurrence. */
  function DistinctKeys(extras: seq<Extra>): seq<string>
    decreases |extras|
  {
    if extras == [] then [] else [extras[0].key] + DistinctKeys(WithoutKey(extras[1..], extras[0].key))
  }

  /** What the finalizer leaves of an extras list: one extra per key, at its first position. */
  function Dedup(extras: seq<Extra>): (r: seq<Extra>)
    ensures |r| <= |extras|
    decreases |extras|
  {
    if extras == [] then []
    else
      var e := extras[0];
      [Extra(e.key, MergedType(e.valueType, extras[1..], e.key))] + Dedup(WithoutKey(extras[1..], e.key))
  }

  lemma {:induction false} WithoutKeyMembers(extras: seq<Extra>, key: string)
    ensures forall e :: e in WithoutKey(extras, key) <==> e in extras && e.key != key
  {
    if extras != [] {
      WithoutKeyMembers(extras[1..], key);
      assert extras == [extras[0]] + extras[1..];
    }
  }

  lemma {:induction false} WithoutKeyKeys(extras: seq<Extra>, key: string)
    ensures Keys(WithoutKey(extras, key)) == Keys(extras) - {key}
  {
    WithoutKeyMembers(extras, key);
  }

  lemma {:induction false} MergedTypeIsTypeOf(valueType: string, rest: seq<Extra>, key: string)
    ensures MergedType(valueType, rest, key) == if valueType != "" then valueType else TypeOf(rest, key)
    decreases |rest|
  {
    if valueType == "" && rest != [] {
      MergedTypeIsTypeOf(if rest[0].key == key then rest[0].valueType else valueType, rest[1..], key);
    }
  }

  lemma {:induction false} TypeOfWithoutOther(extras: seq<Extra>, key: string, other: string)
    requires key != other
    ensures TypeOf(WithoutKey(extras, other), key) == TypeOf(extras, key)
  {
    if extras != [] {
      TypeOfWithoutOther(extras[1..], key, other);
    }
  }

  /** The finalizer loses no key and invents none. */
  lemma {:induction false} DedupKeys(extras: seq<Extra>)
    ensures Keys(Dedup(extras)) == Keys(extras)
    decreases |extras|
  {
    if extras != [] {
      var e := extras[0];
      var rest := WithoutKey(extras[1..], e.key);
      DedupKeys(rest);
      WithoutKeyKeys(extras[1..], e.key);
      KeysAppend([e], extras[1..]);
      assert extras == [e] + extras[1..];
      var head := Extra(e.key, MergedType(e.valueType, extras[1..], e.key));
      KeysAppend([head], Dedup(rest));
      assert Keys([head]) == {e.key} == Keys([e]);
    }
  }

  /** After the finalizer no two extras share a key. */
  lemma {:induction false} DedupUniqueKeys(extras: seq<Extra>)
    ensures UniqueKeys(Dedup(extras))
    decreases |extras|
  {
    if extras != [] {
      var e := extras[0];
      var rest := WithoutKey(extras[1..], e.key);
      DedupUniqueKeys(rest);
      DedupKeys(rest);
      WithoutKeyKeys(extras[1..], e.key);
      var d := Dedup(extras);
      assert d[1..] == Dedup(rest);
      forall i, j | 0 <= i < j < |d| ensures d[i].key != d[j].key {
        if i == 0 {
          assert d[j] == Dedup(rest)[j - 1];
          assert d[j].key in Keys(Dedup(rest));
        } else {
          assert d[i] == Dedup(rest)[i - 1] && d[j] == Dedup(rest)[j - 1];
        }
      }
    }
  }

  /** Each kept extra carries the first non-empty type recorded for its key. */
  lemma {:induction false} DedupTypes(extras: seq<Extra>)
    ensures forall x :: x in Dedup(extras) ==> x.valueType == TypeOf(extras, x.key)
    decreases |extras|
  {
    if extras != [] {
      var e := extras[0];
      var rest := WithoutKey(extras[1..], e.key);
      DedupTypes(rest);
      DedupKeys(rest);
      WithoutKeyKeys(extras[1..], e.key);
      MergedTypeIsTypeOf(e.valueType, extras[1..], e.key);
      var head := Extra(e.key, MergedType(e.valueType, extras[1..], e.key));
      assert Dedup(extras) == [head] + Dedup(rest);
      forall x | x in Dedup(extras) ensures x.valueType == TypeOf(extras, x.key) {
        if x != head {
          assert x in Dedup(rest);
          assert x.key in Keys(Dedup(rest));
          TypeOfWithoutOther(extras[1..], x.key, e.key);
        }
      }
    }
  }

  /** The kept extras appear in the order in which their keys first occur. */
  lemma {:induction false} DedupOrder(extras: seq<Extra>)
    ensures |Dedup(extras)| == |DistinctKeys(extras)|
    ensures forall i :: 0 <= i < |Dedup(extras)| ==> Dedup(extras)[i].key == DistinctKeys(extras)[i]
    decreases |extras|
  {
    if extras != [] {
      var e := extras[0];
      var rest := WithoutKey(extras[1..], e.key);
      DedupOrder(rest);
      var d := Dedup(extras);
      assert d[1..] == Dedup(rest);
      forall i | 0 <= i < |d| ensures d[i].key == DistinctKeys(extras)[i] {
        if i > 0 {
          assert d[i] == Dedup(rest)[i - 1];
        }
      }
    }
  }

  /** A list whose keys are already unique is left as it is. */
  lemma {:induction false} DedupOfUnique(extras: seq<Extra>)
    requires UniqueKeys(extras)
    ensures Dedup(extras) == extras
    decreases |extras|
  {
    if extras != [] {
      var e, tail := extras[0], extras[1..];
      assert forall j :: 0 <= j < |tail| ==> tail[j].key != e.key by {
        forall j | 0 <= j < |tail| ensures tail[j].key != e.key {
          assert tail[j] == extras[j + 1];
        }
      }
      assert UniqueKeys(tail) by {
        forall i, j | 0 <= i < j < |tail| ensures tail[i].key != tail[j].key {
          assert tail[i] == extras[i + 1] && tail[j] == extras[j + 1];
        }
      }
      WithoutKeyNone(tail, e.key);
      MergedTypeIsTypeOf(e.valueType, tail, e.key);
      TypeOfAbsent(tail, e.key);
      DedupOfUnique(tail);
      assert Dedup(extras) == [Extra(e.key, MergedType(e.valueType, tail, e.key))] + Dedup(WithoutKey(tail, e.key));
    }
  }

  lemma {:induction false} WithoutKeyNone(extras: seq<Extra>, key: string)
    requires forall j :: 0 <= j < |extras| ==> extras[j].key != key
    ensures WithoutKey(extras, key) == extras
  {
    if extras != [] {
      WithoutKeyNone(extras[1..], key);
    }
  }

  lemma {:induction false} TypeOfAbsent(extras: seq<Extra>, key: string)
    requires forall j :: 0 <= j < |extras| ==> extras[j].key != key
    ensures TypeOf(extras, key) == ""
  {
    if extras != [] {
      TypeOfAbsent(extras[1..], key);
    }
  }

  /** Running the finalizer twice is the same as running it once. */
  lemma DedupIdempotent(extras: seq<Extra>)
    ensures Dedup(Dedup(extras)) == Dedup(extras)
  {
    DedupUniqueKeys(extras);
    DedupOfUnique(Dedup(extras));
  }

  /** Iterator removal of one key from an insertion-ordered string set. */
  method RemoveKey(strings0: seq<string>, key: string) returns (strings: seq<string>)
    ensures strings == Strip(strings0, {key})
  {
    strings := strings0;
    var j := 0;
    ghost var k := 0;
    assert strings[..0] == Strip(strings0[..0], {key});
    while j < |strings|
      invariant Removing(strings0, key, strings, j, k)
      decreases |strings| - j
    {
      RemovingStep(strings0, key, strings, j, k);
      if strings[j] == key {
        strings := strings[..j] + strings[j + 1..];
      } else {
        j := j + 1;
      }
      k := k + 1;
    }
    assert strings0[k..] == [];
    assert strings0[..k] == strings0;
    assert strings[..j] == strings;
  }

  /** RemoveKey after `k` of the original strings: `j` kept so far, the rest not yet looked at. */
  ghost predicate Removing(strings0: seq<string>, key: string, strings: seq<string>, j: nat, k: nat) {
    j <= |strings| && k <= |strings0|
    && strings[..j] == Strip(strings0[..k], {key})
    && strings[j..] == strings0[k..]
  }

  /** One iterator step of RemoveKey: the current string is dropped when it is the key, kept otherwise. */
  lemma RemovingStep(strings0: seq<string>, key: string, strings: seq<string>, j: nat, k: nat)
    requires Removing(strings0, key, strings, j, k) && j < |strings|
    ensures k < |strings0|
    ensures strings[j] == key ==> Removing(strings0, key, strings[..j] + strings[j + 1..], j, k + 1)
    ensures strings[j] != key ==> Removing(strings0, key, strings, j + 1, k + 1)
  {
    SuffixStep(strings, strings0, j, k);
    StripSnoc(strings0[..k], strings0[k], {key});
    TakeSnoc(strings0, k);
    if strings[j] == key {
      var next := strings[..j] + strings[j + 1..];
      assert next[..j] == strings[..j] && next[j..] == strings[j + 1..];
    } else {
      TakeSnoc(strings, j);
    }
  }

  /** Two equal suffixes stay equal one element further on. */
  lemma SuffixStep<T>(a: seq<T>, b: seq<T>, j: nat, k: nat)
    requires j < |a| && k <= |b| && a[j..] == b[k..]
    ensures k < |b| && a[j] == b[k] && a[j + 1..] == b[k + 1..]
  {
    assert a[j..][0] == a[j] && a[j..][1..] == a[j + 1..];
    assert b[k..][0] == b[k] && b[k..][1..] == b[k + 1..];
  }

  lemma TakeSnoc<T>(a: seq<T>, n: nat)
    requires n < |a|
    ensures a[..n + 1] == a[..n] + [a[n]]
  {
  }

  lemma {:induction false} StripSnoc(xs: seq<string>, x: string, ks: set<string>)
    ensures Strip(xs + [x], ks) == Strip(xs, ks) + (if x in ks then [] else [x])
    decreases |xs|
  {
    if xs == [] {
      assert xs + [x] == [x];
    } else {
      assert (xs + [x])[1..] == xs[1..] + [x];
      StripSnoc(xs[1..], x, ks);
    }
  }

  /**
   * The inner loop of the finalizer: every later extra with the key of
   * extra `i` is removed, and the first non-empty type among them fills in
   * an empty type of extra `i`.
   */
  method MergeLaterDuplicates(extras0: seq<Extra>, i: nat) returns (extras: seq<Extra>)
    requires i < |extras0|
    ensures extras == extras0[..i] + [Extra(extras0[i].key, MergedType(extras0[i].valueType, extras0[i + 1..], extras0[i].key))]
                      + WithoutKey(extras0[i + 1..], extras0[i].key)
  {
    extras := extras0;
    ghost var prefix, key, tail0 := extras0[..i], extras0[i].key, extras0[i + 1..];
    ghost var goal := MergedType(extras0[i].valueType, tail0, key);
    ghost var v := extras0[i].valueType;
    ghost var k := 0;
    assert extras0 == prefix + [Extra(key, v)] + WithoutKey(tail0[..0], key) + tail0[0..] by {
      assert tail0[..0] == [] && tail0[0..] == tail0;
    }
    var n := i + 1;
    while n < |extras|
      invariant 0 <= k <= |tail0|
      invariant extras == prefix + [Extra(key, v)] + WithoutKey(tail0[..k], key) + tail0[k..]
      invariant n == i + 1 + |WithoutKey(tail0[..k], key)|
      invariant MergedType(v, tail0[k..], key) == goal
      decreases |extras| - n
    {
      Layout(prefix, Extra(key, v), WithoutKey(tail0[..k], key), tail0[k..]);
      if extras[i].key == extras[n].key {
        ghost var v0 := v;
        if extras[i].valueType == "" {
          extras := extras[i := WithValueType(extras[i], extras[n].valueType)];
          v := tail0[k].valueType;
          Relabel(prefix, Extra(key, ""), Extra(key, v), WithoutKey(tail0[..k], key), tail0[k..]);
        }
        MergeStepMatch(prefix, key, v0, v, tail0, k);
        extras := extras[..n] + extras[n + 1..];
        n := n - 1;
      } else {
        MergeStepMiss(prefix, key, v, tail0, k);
      }
      n := n + 1;
      k := k + 1;
    }
    assert tail0[k..] == [];
    assert tail0[..k] == tail0;
  }

  /** The inner loop meets a later extra with the same key: it is merged and removed. */
  lemma MergeStepMatch(prefix: seq<Extra>, key: string, v0: string, v: string, tail0: seq<Extra>, k: nat)
    requires k < |tail0| && tail0[k].key == key
    requires v == if v0 == "" then tail0[k].valueType else v0
    ensures var l := prefix + [Extra(key, v)] + WithoutKey(tail0[..k], key) + tail0[k..];
      var n := |prefix| + 1 + |WithoutKey(tail0[..k], key)|;
      l[..n] + l[n + 1..] == prefix + [Extra(key, v)] + WithoutKey(tail0[..k + 1], key) + tail0[k + 1..]
      && n - 1 == |prefix| + |WithoutKey(tail0[..k + 1], key)|
    ensures MergedType(v, tail0[k + 1..], key) == MergedType(v0, tail0[k..], key)
  {
    Layout(prefix, Extra(key, v), WithoutKey(tail0[..k], key), tail0[k..]);
    WithoutKeySnoc(tail0[..k], tail0[k], key);
    assert tail0[..k + 1] == tail0[..k] + [tail0[k]];
    MergedTypeStep(v0, tail0[k..], key);
    assert tail0[k..][1..] == tail0[k + 1..];
  }

  /** The inner loop meets a later extra with another key: it stays. */
  lemma MergeStepMiss(prefix: seq<Extra>, key: string, v: string, tail0: seq<Extra>, k: nat)
    requires k < |tail0| && tail0[k].key != key
    ensures var l := prefix + [Extra(key, v)] + WithoutKey(tail0[..k], key) + tail0[k..];
      l == prefix + [Extra(key, v)] + WithoutKey(tail0[..k + 1], key) + tail0[k + 1..]
      && |WithoutKey(tail0[..k + 1], key)| == |WithoutKey(tail0[..k], key)| + 1
    ensures MergedType(v, tail0[k + 1..], key) == MergedType(v, tail0[k..], key)
  {
    Layout(prefix, Extra(key, v), WithoutKey(tail0[..k], key), tail0[k..]);
    WithoutKeySnoc(tail0[..k], tail0[k], key);
    assert tail0[..k + 1] == tail0[..k] + [tail0[k]];
    MergedTypeStep(v, tail0[k..], key);
    assert tail0[k..][1..] == tail0[k + 1..];
  }

  /** Where the pieces of the inner loop's list sit. */
  lemma Layout(prefix: seq<Extra>, cur: Extra, done: seq<Extra>, t: seq<Extra>)
    requires t != []
    ensures var l := prefix + [cur] + done + t;
      var n := |prefix| + 1 + |done|;
      l[|prefix|] == cur && l[n] == t[0]
      && l[..n] + l[n + 1..] == prefix + [cur] + done + t[1..]
      && l == prefix + [cur] + (done + [t[0]]) + t[1..]
  {
    var l := prefix + [cur] + done + t;
    var n := |prefix| + 1 + |done|;
    assert l[..n] == prefix + [cur] + done;
    assert l[n + 1..] == t[1..];
    assert t == [t[0]] + t[1..];
  }

  lemma Relabel(prefix: seq<Extra>, cur: Extra, next: Extra, done: seq<Extra>, rest: seq<Extra>)
    ensures (prefix + [cur] + done + rest)[|prefix| := next] == prefix + [next] + done + rest
  {
  }

  lemma {:induction false} MergedTypeStep(valueType: string, rest: seq<Extra>, key: string)
    requires rest != []
    ensures MergedType(valueType, rest, key)
         == MergedType(if valueType == "" && rest[0].key == key then rest[0].valueType else valueType, rest[1..], key)
  {
    if valueType != "" {
      MergedTypeIsTypeOf(valueType, rest[1..], key);
    }
  }

  /** One round of the outer loop keeps the finalizer's invariant on the extras. */
  lemma FinalizeRoundExtras(prefix: seq<Extra>, head: Extra, tail: seq<Extra>, done: seq<Extra>, all: seq<Extra>)
    requires prefix + Dedup([head] + tail) == Dedup(all)
    requires done == prefix + [Extra(head.key, MergedType(head.valueType, tail, head.key))] + WithoutKey(tail, head.key)
    ensures done[..|prefix| + 1] + Dedup(done[|prefix| + 1..]) == Dedup(all)
  {
    assert ([head] + tail)[1..] == tail;
    assert done[..|prefix| + 1] == prefix + [Extra(head.key, MergedType(head.valueType, tail, head.key))];
    assert done[|prefix| + 1..] == WithoutKey(tail, head.key);
  }

  /** One round of the outer loop keeps the finalizer's invariant on the keys. */
  lemma FinalizeRoundKeys(prefix: seq<Extra>, head: Extra, tail: seq<Extra>, done: seq<Extra>, all: seq<Extra>)
    requires Keys(prefix) + Keys([head] + tail) == Keys(all)
    requires done == prefix + [Extra(head.key, MergedType(head.valueType, tail, head.key))] + WithoutKey(tail, head.key)
    ensures Keys(done[..|prefix| + 1]) + Keys(done[|prefix| + 1..]) == Keys(all)
    ensures Keys(done[..|prefix| + 1]) == Keys(prefix) + {head.key}
  {
    var merged := Extra(head.key, MergedType(head.valueType, tail, head.key));
    assert done[..|prefix| + 1] == prefix + [merged];
    assert done[|prefix| + 1..] == WithoutKey(tail, head.key);
    KeysAppend(prefix, [merged]);
    KeysAppend([head], tail);
    assert Keys([merged]) == {head.key} == Keys([head]);
    WithoutKeyKeys(tail, head.key);
  }

  /**
   * The finalizer of one lifecycle method (Activity.finalizeOnCreate and its
   * copies): for each extra, later extras with the same key are removed and
   * their type fills in an empty one; then the key is removed from the
   * method's strings and from the component's global strings.
   */
  method FinalizeBag(extras0: seq<Extra>, strings0: seq<string>, globals0: seq<string>)
    returns (extras: seq<Extra>, strings: seq<string>, globals: seq<string>)
    ensures extras == Dedup(extras0)
    ensures strings == Strip(strings0, Keys(extras0))
    ensures globals == Strip(globals0, Keys(extras0))
  {
    extras, strings, globals := extras0, strings0, globals0;
    StripEmpty(strings0);
    StripEmpty(globals0);
    var i := 0;
    assert Keys(extras[..0]) == {};
    assert extras[0..] == extras0;
    while i < |extras|
      invariant Finalizing(extras0, strings0, globals0, extras, strings, globals, i)
      decreases |extras| - i
    {
      extras, strings, globals := FinalizeRound(extras0, strings0, globals0, extras, strings, globals, i);
      i := i + 1;
    }
    assert extras[..i] == extras;
    assert extras[i..] == [];
    assert Keys(extras[i..]) == {};
  }

  /**
   * The finalizer's outer loop after `i` rounds: the first `i` extras are
   * final, the rest still deduplicate to the same result, and the keys of
   * the first `i` are gone from both string lists.
   */
  ghost predicate Finalizing(extras0: seq<Extra>, strings0: seq<string>, globals0: seq<string>,
                             extras: seq<Extra>, strings: seq<string>, globals: seq<string>, i: nat)
  {
    i <= |extras|
    && extras[..i] + Dedup(extras[i..]) == Dedup(extras0)
    && Keys(extras[..i]) + Keys(extras[i..]) == Keys(extras0)
    && strings == Strip(strings0, Keys(extras[..i]))
    && globals == Strip(globals0, Keys(extras[..i]))
  }

  /** One round of the finalizer's outer loop: extra `i` absorbs its later duplicates and its key leaves both string lists. */
  method FinalizeRound(ghost extras0: seq<Extra>, ghost strings0: seq<string>, ghost globals0: seq<string>,
                       extras: seq<Extra>, strings: seq<string>, globals: seq<string>, i: nat)
    returns (nextExtras: seq<Extra>, nextStrings: seq<string>, nextGlobals: seq<string>)
    requires Finalizing(extras0, strings0, globals0, extras, strings, globals, i) && i < |extras|
    ensures Finalizing(extras0, strings0, globals0, nextExtras, nextStrings, nextGlobals, i + 1)
    ensures |nextExtras| <= |extras|
  {
    ghost var prefix, head, tail := extras[..i], extras[i], extras[i + 1..];
    assert extras[i..] == [head] + tail;
    nextExtras := MergeLaterDuplicates(extras, i);
    FinalizeRoundExtras(prefix, head, tail, nextExtras, extras0);
    FinalizeRoundKeys(prefix, head, tail, nextExtras, extras0);
    var key := nextExtras[i].key;
    nextStrings := RemoveKey(strings, key);
    nextGlobals := RemoveKey(globals, key);
    StripTwice(strings0, Keys(prefix), {key});
    StripTwice(globals0, Keys(prefix), {key});
  }

  lemma StripEmpty(xs: seq<string>)
    ensures Strip(xs, {}) == xs
  {
    if xs != [] {
      StripEmpty(xs[1..]);
    }
  }

  lemma KeysAppend(a: seq<Extra>, b: seq<Extra>)
    ensures Keys(a + b) == Keys(a) + Keys(b)
  {
    assert forall e :: e in a + b <==> e in a || e in b;
  }

  lemma {:induction false} WithoutKeySnoc(xs: seq<Extra>, x: Extra, key: string)
    ensures WithoutKey(xs + [x], key) == WithoutKey(xs, key) + (if x.key == key then [] else [x])
    decreases |xs|
  {
    if xs == [] {
      assert xs + [x] == [x];
    } else {
      assert (xs + [x])[1..] == xs[1..] + [x];
      WithoutKeySnoc(xs[1..], x, key);
    }
  }
}
