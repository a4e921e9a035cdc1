/** PHP values as the client sees them, and PHP's ordered arrays: a
    sequence of key/value entries whose keys are distinct, kept in
    insertion order. */
module PhpValues {

  datatype Option<T> = None | Some(value: T)

  /** An array key: PHP keys are integers or strings. */
  datatype Key = IntKey(i: int) | StrKey(s: string)

  /** The PHP values that reach the client as request data, options or
      decoded JSON. */
  datatype Value =
    | Null
    | Boolean(b: bool)
    | Integer(i: int)
    | Text(s: string)
    | Array(entries: seq<(Key, Value)>)
    | Object(props: seq<(Key, Value)>)

  /** Conversion of a string to bool (also `!empty($s)`): "" and "0" are false. */
  predicate TruthyString(s: string) {
    s != "" && s != "0"
  }

  /** Conversion of a value to bool, as `if ($data)` does it. */
  predicate Truthy(v: Value) {
    match v
    case Null => false
    case Boolean(b) => b
    case Integer(i) => i != 0
    case Text(s) => TruthyString(s)
    case Array(entries) => entries != []
    case Object(_) => true
  }

  /** `is_array($v) || is_object($v)`. */
  predicate IsStructured(v: Value) {
    v.Array? || v.Object?
  }

  /** `(array)$v` for an array or an object: its entries. */
  function AsEntries(v: Value): seq<(Key, Value)>
    requires IsStructured(v)
  {
    if v.Array? then v.entries else v.props
  }

  predicate DistinctKeys<V>(a: seq<(Key, V)>) {
    forall i, j :: 0 <= i < j < |a| ==> a[i].0 != a[j].0
  }

  /** A PHP array: ordered entries with distinct keys. */
  type PhpArray<V> = a: seq<(Key, V)> | DistinctKeys(a) witness []

  /** The value stored under `k`, if any (`array_key_exists` plus `$a[$k]`). */
  function Lookup<V>(a: seq<(Key, V)>, k: Key): (r: Option<V>)
    ensures r.None? <==> forall i :: 0 <= i < |a| ==> a[i].0 != k
    ensures r.Some? ==> exists i :: 0 <= i < |a| && a[i] == (k, r.value)
  {
    if a == [] then None
    else if a[0].0 == k then Some(a[0].1)
    else
      var r := Lookup(a[1..], k);
      assert forall i :: 1 <= i < |a| ==> a[i] == a[1..][i - 1];
      r
  }

  /** In a PHP array the entry at index `i` is the one `Lookup` finds for its key. */
  lemma LookupAt<V>(a: PhpArray<V>, i: nat)
    requires i < |a|
    ensures Lookup(a, a[i].0) == Some(a[i].1)
  {
    var j :| 0 <= j < |a| && a[j] == (a[i].0, Lookup(a, a[i].0).value);
    assert i == j;
  }

  /** Appending an entry under another key leaves the lookup of `k'` alone. */
  lemma {:induction false} LookupAppend<V>(a: seq<(Key, V)>, e: (Key, V), k': Key)
    requires e.0 != k'
    ensures Lookup(a + [e], k') == Lookup(a, k')
  {
    if a == [] {
      assert [e][1..] == [];
    } else if a[0].0 != k' {
      assert (a + [e])[1..] == a[1..] + [e];
      LookupAppend(a[1..], e, k');
    }
  }

  /** Two entry lists with the same keys that differ only in entries under
      `k` agree on every other key. */
  lemma {:induction false} SameLookups<V>(a: seq<(Key, V)>, r: seq<(Key, V)>, k: Key, k': Key)
    requires |r| == |a| && k' != k
    requires forall i :: 0 <= i < |a| ==> r[i].0 == a[i].0 && (a[i].0 != k ==> r[i] == a[i])
    ensures Lookup(r, k') == Lookup(a, k')
  {
    if a != [] && a[0].0 != k' {
      assert forall i :: 0 <= i < |a| - 1 ==> a[1..][i] == a[i + 1] && r[1..][i] == r[i + 1];
      SameLookups(a[1..], r[1..], k, k');
    }
  }

  /** `$a[$k] = $v`: an existing entry is overwritten where it stands,
      a new key is appended at the end. */
  function Put<V>(a: PhpArray<V>, k: Key, v: V): (r: PhpArray<V>)
    ensures Lookup(r, k) == Some(v)
    ensures forall k' :: k' != k ==> Lookup(r, k') == Lookup(a, k')
    ensures Lookup(a, k).Some? ==>
      |r| == |a| && forall i :: 0 <= i < |a| ==> r[i] == (if a[i].0 == k then (k, v) else a[i])
    ensures Lookup(a, k).None? ==> r == a + [(k, v)]
  {
    if Lookup(a, k).None? then
      var r := a + [(k, v)];
      assert DistinctKeys(r);
      LookupAt(r, |a|);
      assert forall k' :: k' != k ==> Lookup(r, k') == Lookup(a, k') by {
        forall k' | k' != k ensures Lookup(r, k') == Lookup(a, k') {
          LookupAppend(a, (k, v), k');
        }
      }
      r
    else
      var r := seq(|a|, i requires 0 <= i < |a| => if a[i].0 == k then (k, v) else a[i]);
      assert forall i :: 0 <= i < |a| ==> r[i].0 == a[i].0;
      assert DistinctKeys(r);
      var i0 :| 0 <= i0 < |a| && a[i0].0 == k;
      LookupAt(r, i0);
      assert forall k' :: k' != k ==> Lookup(r, k') == Lookup(a, k') by {
        forall k' | k' != k ensures Lookup(r, k') == Lookup(a, k') {
          SameLookups(a, r, k, k');
        }
      }
      r
  }

  /** `unset($a[$k])`. */
  function Remove<V>(a: PhpArray<V>, k: Key): (r: PhpArray<V>)
    ensures Lookup(r, k).None?
    ensures forall k' :: k' != k ==> Lookup(r, k') == Lookup(a, k')
  {
    if a == [] then []
    else if a[0].0 == k then
      var rest: PhpArray<V> := a[1..];
      assert Lookup(rest, k).None? by {
        forall i | 0 <= i < |rest| ensures rest[i].0 != k {
          assert rest[i] == a[i + 1];
        }
      }
      rest
    else
      var rest: PhpArray<V> := a[1..];
      var r' := Remove(rest, k);
      assert Lookup(rest, a[0].0).None? by {
        forall i | 0 <= i < |rest| ensures rest[i].0 != a[0].0 {
          assert rest[i] == a[i + 1];
        }
      }
      var r := [a[0]] + r';
      assert DistinctKeys(r) by {
        forall i, j | 0 <= i < j < |r| ensures r[i].0 != r[j].0 {
          if i == 0 {
            assert r[j] == r'[j - 1];
          } else {
            assert r[i] == r'[i - 1] && r[j] == r'[j - 1];
          }
        }
      }
      r
  }

  /** The value of the last entry of `es` with key `k`, if any. */
  function LastFor<V>(es: seq<(Key, V)>, k: Key): Option<V> {
    if es == [] then None
    else if es[|es| - 1].0 == k then Some(es[|es| - 1].1)
    else LastFor(es[..|es| - 1], k)
  }

  /** `LastFor` finds nothing exactly when no entry has the key, and
      otherwise the value of an entry with that key after which no entry
      has it. */
  lemma {:induction false} LastForSpec<V>(es: seq<(Key, V)>, k: Key)
    ensures LastFor(es, k).None? <==> forall i :: 0 <= i < |es| ==> es[i].0 != k
    ensures LastFor(es, k).Some? ==>
      exists i :: 0 <= i < |es| && es[i] == (k, LastFor(es, k).value) && forall j :: i < j < |es| ==> es[j].0 != k
    decreases |es|
  {
    if es != [] && es[|es| - 1].0 != k {
      var pre := es[..|es| - 1];
      LastForSpec(pre, k);
      assert LastFor(es, k) == LastFor(pre, k);
      assert forall i :: 0 <= i < |pre| ==> pre[i] == es[i];
      if LastFor(pre, k).Some? {
        var i :| 0 <= i < |pre| && pre[i] == (k, LastFor(pre, k).value) && forall j :: i < j < |pre| ==> pre[j].0 != k;
        assert es[i] == (k, LastFor(es, k).value) && forall j :: i < j < |es| ==> es[j].0 != k;
      }
    }
  }

  /** In a PHP array there is one entry per key, so the last entry for a
      key is the one `Lookup` finds. */
  lemma LastForDistinct<V>(a: PhpArray<V>, k: Key)
    ensures LastFor(a, k) == Lookup(a, k)
  {
    LastForSpec(a, k);
    if LastFor(a, k).Some? {
      var i :| 0 <= i < |a| && a[i] == (k, LastFor(a, k).value);
      var i' :| 0 <= i' < |a| && a[i'] == (k, Lookup(a, k).value);
      assert i == i';
    }
  }

  /** The last entry of `a + b` for a key is `b`'s, unless `b` lacks the key. */
  lemma {:induction false} LastForConcat<V>(a: seq<(Key, V)>, b: seq<(Key, V)>, k: Key)
    ensures LastFor(a + b, k) == if LastFor(b, k).Some? then LastFor(b, k) else LastFor(a, k)
    decreases |b|
  {
    if b == [] {
      assert a + b == a;
    } else {
      assert (a + b)[..|a + b| - 1] == a + b[..|b| - 1];
      LastForConcat(a, b[..|b| - 1], k);
    }
  }

  /** A `foreach ($es as $k => $v) $a[$k] = $v;` loop: each entry of `es`
      is stored in turn, so for every key the last entry of `es` wins and
      keys `es` does not mention keep their value from `a`. */
  function PutAll<V>(a: PhpArray<V>, es: seq<(Key, V)>): (r: PhpArray<V>)
    ensures forall k :: Lookup(r, k) == if LastFor(es, k).Some? then LastFor(es, k) else Lookup(a, k)
    decreases |es|
  {
    if es == [] then a
    else
      var e := es[|es| - 1];
      Put(PutAll(a, es[..|es| - 1]), e.0, e.1)
  }

  /** One more iteration of the `foreach` loop of `PutAll`. */
  lemma PutAllSnoc<V>(a: PhpArray<V>, es: seq<(Key, V)>, e: (Key, V))
    ensures PutAll(a, es + [e]) == Put(PutAll(a, es), e.0, e.1)
  {
    assert (es + [e])[..|es|] == es;
  }

  /** The integer-keyed entries of `es`, in order. */
  function IntEntries<V>(es: seq<(Key, V)>): (r: seq<(Key, V)>)
    ensures forall j :: 0 <= j < |r| ==> r[j].0.IntKey?
  {
    if es == [] then []
    else (if es[0].0.IntKey? then [es[0]] else []) + IntEntries(es[1..])
  }

  lemma {:induction false} IntEntriesConcat<V>(a: seq<(Key, V)>, b: seq<(Key, V)>)
    ensures IntEntries(a + b) == IntEntries(a) + IntEntries(b)
  {
    if a == [] {
      assert a + b == b;
    } else {
      assert (a + b)[1..] == a[1..] + b;
      IntEntriesConcat(a[1..], b);
    }
  }

  /** Every integer-keyed entry of `es` appears among `IntEntries(es)`. */
  lemma {:induction false} IntEntryListed<V>(es: seq<(Key, V)>, i: nat)
    requires i < |es| && es[i].0.IntKey?
    ensures exists j :: 0 <= j < |IntEntries(es)| && IntEntries(es)[j] == es[i]
  {
    if i == 0 {
      assert IntEntries(es)[0] == es[0];
    } else {
      IntEntryListed(es[1..], i - 1);
      var j :| 0 <= j < |IntEntries(es[1..])| && IntEntries(es[1..])[j] == es[1..][i - 1];
      var pre := if es[0].0.IntKey? then [es[0]] else [];
      assert IntEntries(es)[|pre| + j] == es[i];
    }
  }

  /** The values of a sequence of entries, in order. */
  function Values<V>(es: seq<(Key, V)>): (r: seq<V>)
    ensures |r| == |es| && forall j :: 0 <= j < |es| ==> r[j] == es[j].1
  {
    seq(|es|, j requires 0 <= j < |es| => es[j].1)
  }

  /** The integer keys of `a` are 0, 1, 2, ... in order, as `array_merge`
      leaves them. */
  predicate Renumbered<V>(a: seq<(Key, V)>) {
    forall j :: 0 <= j < |IntEntries(a)| ==> IntEntries(a)[j].0 == IntKey(j)
  }

  /** One step of `array_merge`: an integer-keyed entry is appended under
      the next integer key, a string-keyed one is stored with `$r[$k] = $v`. */
  function MergeStep<V>(acc: PhpArray<V>, e: (Key, V)): (r: PhpArray<V>)
    requires Renumbered(acc)
    ensures Renumbered(r)
    ensures Values(IntEntries(r)) == Values(IntEntries(acc)) + (if e.0.IntKey? then [e.1] else [])
    ensures forall s :: Lookup(r, StrKey(s)) == if StrKey(s) == e.0 then Some(e.1) else Lookup(acc, StrKey(s))
  {
    if e.0.IntKey? then
      var n := |IntEntries(acc)|;
      assert Lookup(acc, IntKey(n)).None? by {
        forall i | 0 <= i < |acc| ensures acc[i].0 != IntKey(n) {
          if acc[i].0.IntKey? {
            IntEntryListed(acc, i);
          }
        }
      }
      var r := Put(acc, IntKey(n), e.1);
      IntEntriesConcat(acc, [(IntKey(n), e.1)]);
      assert IntEntries([(IntKey(n), e.1)]) == [(IntKey(n), e.1)];
      r
    else
      var r := Put(acc, e.0, e.1);
      PutKeepsIntEntries(acc, e.0, e.1);
      r
  }

  /** Entry lists with the same keys whose integer-keyed entries agree
      have the same integer-keyed entries. */
  lemma {:induction false} SameIntEntries<V>(a: seq<(Key, V)>, r: seq<(Key, V)>)
    requires |r| == |a|
    requires forall i :: 0 <= i < |a| ==> r[i].0 == a[i].0 && (a[i].0.IntKey? ==> r[i] == a[i])
    ensures IntEntries(r) == IntEntries(a)
  {
    if a != [] {
      assert forall i :: 0 <= i < |a| - 1 ==> a[1..][i] == a[i + 1] && r[1..][i] == r[i + 1];
      SameIntEntries(a[1..], r[1..]);
    }
  }

  /** Storing under a string key leaves the integer-keyed entries alone. */
  lemma PutKeepsIntEntries<V>(a: PhpArray<V>, k: Key, v: V)
    requires k.StrKey?
    ensures IntEntries(Put(a, k, v)) == IntEntries(a)
  {
    if Lookup(a, k).None? {
      IntEntriesConcat(a, [(k, v)]);
      assert [(k, v)][1..] == [];
    } else {
      SameIntEntries(a, Put(a, k, v));
    }
  }

  lemma ValuesConcat<V>(x: seq<(Key, V)>, y: seq<(Key, V)>)
    ensures Values(x + y) == Values(x) + Values(y)
  {
  }

  /** `array_merge` applied to the entries `es`, as one list. */
  function MergeAll<V>(es: seq<(Key, V)>): (r: PhpArray<V>)
    ensures Renumbered(r)
    ensures Values(IntEntries(r)) == Values(IntEntries(es))
    ensures forall s :: Lookup(r, StrKey(s)) == LastFor(es, StrKey(s))
    decreases |es|
  {
    if es == [] then []
    else
      var init := es[..|es| - 1];
      var e := es[|es| - 1];
      var m := MergeAll(init);
      assert es == init + [e];
      MergeAllStep(init, e, m);
      MergeStep(m, e)
  }

  /** The inductive step of `MergeAll`: one more entry merged. */
  lemma MergeAllStep<V>(init: seq<(Key, V)>, e: (Key, V), m: PhpArray<V>)
    requires Renumbered(m)
    requires Values(IntEntries(m)) == Values(IntEntries(init))
    requires forall s :: Lookup(m, StrKey(s)) == LastFor(init, StrKey(s))
    ensures Values(IntEntries(MergeStep(m, e))) == Values(IntEntries(init + [e]))
    ensures forall s :: Lookup(MergeStep(m, e), StrKey(s)) == LastFor(init + [e], StrKey(s))
  {
    var r := MergeStep(m, e);
    IntEntriesConcat(init, [e]);
    assert IntEntries([e]) == if e.0.IntKey? then [e] else [];
    ValuesConcat(IntEntries(init), IntEntries([e]));
    forall s ensures Lookup(r, StrKey(s)) == LastFor(init + [e], StrKey(s)) {
      var k := StrKey(s);
      assert (init + [e])[..|init|] == init;
      assert LastFor(init + [e], k) == if e.0 == k then Some(e.1) else LastFor(init, k);
    }
  }

  /** `array_merge($a, $b)`. */
  function ArrayMerge<V>(a: PhpArray<V>, b: PhpArray<V>): (r: PhpArray<V>)
    ensures Renumbered(r)
  {
    MergeAll(a + b)
  }

  /** For a string key present in `$b`, `array_merge($a, $b)` holds `$b`'s
      value; for one only in `$a`, `$a`'s value. */
  lemma MergeStringKeys<V>(a: PhpArray<V>, b: PhpArray<V>, s: string)
    ensures Lookup(ArrayMerge(a, b), StrKey(s)) ==
      if Lookup(b, StrKey(s)).Some? then Lookup(b, StrKey(s)) else Lookup(a, StrKey(s))
  {
    LastForConcat(a, b, StrKey(s));
    LastForDistinct(a, StrKey(s));
    LastForDistinct(b, StrKey(s));
  }

  /** `array_merge($a, $b)` keeps the integer-keyed values of both, those of
      `$a` first, renumbered from 0. */
  lemma MergeIntEntries<V>(a: PhpArray<V>, b: PhpArray<V>)
    ensures Values(IntEntries(ArrayMerge(a, b))) == Values(IntEntries(a)) + Values(IntEntries(b))
    ensures forall j :: 0 <= j < |IntEntries(ArrayMerge(a, b))| ==> IntEntries(ArrayMerge(a, b))[j].0 == IntKey(j)
  {
    var m := ArrayMerge(a, b);
    assert Values(IntEntries(m)) == Values(IntEntries(a + b));
    IntEntriesConcat(a, b);
    ValuesConcat(IntEntries(a), IntEntries(b));
  }
}
