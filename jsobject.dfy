/** JavaScript plain objects as the render job uses them (`Record<string, VariableData>`,
    `{ [key: string]: string[] }`, `{ [key: string]: File | null }`): the own enumerable
    properties in ECMAScript own-property order, which is the order `Object.entries`,
    `Object.values`, spreading and `JSON.stringify` all follow. Keys that are array indices
    come first in ascending numeric order; every other key follows in insertion order. */
module JsObject {
  import opened Wrappers
  import opened JsText

  datatype Property<V> = Property(key: string, value: V)

  /** An array index: the canonical decimal numeral of a number below 2^32 - 1. */
  predicate IsArrayIndex(k: string) {
    Value(k, 10) < 0xFFFF_FFFF && NatText(Value(k, 10)) == k
  }

  /** The number an array-index key stands for. */
  function Rank(k: string): nat {
    Value(k, 10)
  }

  /** Key `later` may come after key `earlier` in one object: keys differ, and an array index
      is only ever preceded by smaller array indices. */
  predicate CanFollow(earlier: string, later: string) {
    earlier != later && (IsArrayIndex(later) ==> IsArrayIndex(earlier) && Rank(earlier) < Rank(later))
  }

  predicate OrderedKeys(ks: seq<string>) {
    forall i, j :: 0 <= i < j < |ks| ==> CanFollow(ks[i], ks[j])
  }

  function KeysOf<V>(o: seq<Property<V>>): (ks: seq<string>)
    ensures |ks| == |o| && forall j :: 0 <= j < |o| ==> ks[j] == o[j].key
  {
    seq(|o|, j requires 0 <= j < |o| => o[j].key)
  }

  /** `Object.values(o)`. */
  function ValuesOf<V>(o: seq<Property<V>>): (vs: seq<V>)
    ensures |vs| == |o| && forall j :: 0 <= j < |o| ==> vs[j] == o[j].value
  {
    seq(|o|, j requires 0 <= j < |o| => o[j].value)
  }

  predicate WellFormed<V>(o: seq<Property<V>>) {
    OrderedKeys(KeysOf(o))
  }

  /** A plain object: distinct keys in own-property order. */
  type JsObject<V> = o: seq<Property<V>> | WellFormed(o) witness []

  /** The position of the first property named `k`, or `|o|` when there is none. */
  function FindKey<V>(o: seq<Property<V>>, k: string): (j: nat)
    ensures j <= |o|
    ensures j < |o| ==> o[j].key == k
    ensures forall i :: 0 <= i < j ==> o[i].key != k
  {
    if o == [] then 0 else if o[0].key == k then 0 else 1 + FindKey(o[1..], k)
  }

  /** `k in o` for an own property. */
  predicate Has<V>(o: seq<Property<V>>, k: string) {
    FindKey(o, k) < |o|
  }

  /** `o[k]`, with `None` for `undefined`. */
  function Get<V>(o: seq<Property<V>>, k: string): Option<V> {
    var j := FindKey(o, k);
    if j < |o| then Some(o[j].value) else None
  }

  // ------------------------------------------------------------------ facts about lookup

  lemma HasIff<V>(o: seq<Property<V>>, k: string)
    ensures Has(o, k) <==> k in KeysOf(o)
  {
    if k in KeysOf(o) {
      var j :| 0 <= j < |o| && KeysOf(o)[j] == k;
      assert FindKey(o, k) <= j;
    }
  }

  /** Lookup in a concatenation finds the first part's property before the second's. */
  lemma {:induction false} GetConcat<V>(a: seq<Property<V>>, b: seq<Property<V>>, k: string)
    ensures Get(a + b, k) == if Has(a, k) then Get(a, k) else Get(b, k)
    ensures Has(a + b, k) <==> Has(a, k) || Has(b, k)
  {
    if a != [] {
      GetConcat(a[1..], b, k);
      assert (a + b)[1..] == a[1..] + b;
    } else {
      assert a + b == b;
    }
  }

  lemma GetSingle<V>(p: Property<V>, k: string)
    ensures Get([p], k) == if p.key == k then Some(p.value) else None
  {
  }

  /** In a well-formed object, every property is what lookup by its key returns. */
  lemma GetAt<V>(o: JsObject<V>, j: nat)
    requires j < |o|
    ensures Get(o, o[j].key) == Some(o[j].value)
  {
    var f := FindKey(o, o[j].key);
    assert f <= j;
    assert f < j ==> CanFollow(KeysOf(o)[f], KeysOf(o)[j]);
  }

  /** Lookup in an object that is a part, then a property, then a part. */
  lemma GetSplit<V>(a: seq<Property<V>>, p: Property<V>, b: seq<Property<V>>, k: string)
    ensures k != p.key ==> Get(a + [p] + b, k) == Get(a + b, k)
    ensures k != p.key ==> (Has(a + [p] + b, k) <==> Has(a + b, k))
    ensures !Has(a, k) && k == p.key ==> Get(a + [p] + b, k) == Some(p.value)
  {
    GetConcat(a + [p], b, k);
    GetConcat(a, [p], k);
    GetConcat(a, b, k);
    GetSingle(p, k);
  }

  // ------------------------------------------------------------------ facts about key order

  lemma KeysOfConcat<V>(a: seq<Property<V>>, b: seq<Property<V>>)
    ensures KeysOf(a + b) == KeysOf(a) + KeysOf(b)
  {
  }

  /** An array index is determined by its rank. */
  lemma RankInjective(a: string, b: string)
    ensures IsArrayIndex(a) && IsArrayIndex(b) && Rank(a) == Rank(b) ==> a == b
  {
  }

  /** One more key may be appended exactly when it can follow every key already there. */
  lemma OrderedAppend(ks: seq<string>, k: string)
    ensures OrderedKeys(ks + [k]) <==> OrderedKeys(ks) && forall i :: 0 <= i < |ks| ==> CanFollow(ks[i], k)
  {
    if OrderedKeys(ks + [k]) {
      forall i, j | 0 <= i < j < |ks| ensures CanFollow(ks[i], ks[j]) {
        assert (ks + [k])[i] == ks[i] && (ks + [k])[j] == ks[j];
      }
      forall i | 0 <= i < |ks| ensures CanFollow(ks[i], k) {
        assert (ks + [k])[i] == ks[i] && (ks + [k])[|ks|] == k;
      }
    }
  }

  /** Dropping one key keeps the rest in order. */
  lemma OrderedRemove(ks: seq<string>, j: nat)
    requires j < |ks| && OrderedKeys(ks)
    ensures OrderedKeys(ks[..j] + ks[j + 1..])
  {
    var r := ks[..j] + ks[j + 1..];
    forall a, b | 0 <= a < b < |r| ensures CanFollow(r[a], r[b]) {
      var a' := if a < j then a else a + 1;
      var b' := if b < j then b else b + 1;
      assert r[a] == ks[a'] && r[b] == ks[b'];
    }
  }

  /** Where a new array-index key goes: after every smaller array index. */
  function InsertPos<V>(o: seq<Property<V>>, k: string): (pos: nat)
    ensures pos <= |o|
    ensures forall j :: 0 <= j < pos ==> IsArrayIndex(o[j].key) && Rank(o[j].key) < Rank(k)
    ensures pos < |o| ==> !IsArrayIndex(o[pos].key) || Rank(k) <= Rank(o[pos].key)
  {
    if o == [] || !IsArrayIndex(o[0].key) || Rank(k) <= Rank(o[0].key) then 0
    else 1 + InsertPos(o[1..], k)
  }

  /** Where a new key goes: array indices by rank, every other key at the end. */
  function Slot<V>(o: seq<Property<V>>, k: string): (pos: nat)
    ensures pos <= |o|
  {
    if IsArrayIndex(k) then InsertPos(o, k) else |o|
  }

  /** Adding a property under a key the object does not have yet. */
  function Insert<V>(o: seq<Property<V>>, p: Property<V>): seq<Property<V>>
  {
    var pos := Slot(o, p.key);
    o[..pos] + [p] + o[pos..]
  }

  lemma InsertWellFormed<V>(o: JsObject<V>, p: Property<V>)
    requires !Has(o, p.key)
    ensures WellFormed(Insert(o, p))
  {
    HasIff(o, p.key);
    var k := p.key;
    var pos := Slot(o, k);
    var ks := KeysOf(o);
    KeysOfInsert(o, p, pos);
    forall c | 0 <= c < pos
      ensures CanFollow(ks[c], k)
    {
      FollowedBySlot(o, k, c);
    }
    forall c | pos <= c < |ks|
      ensures CanFollow(k, ks[c])
    {
      SlotFollowedBy(o, k, c);
    }
    OrderedInsert(ks, k, pos);
  }

  lemma KeysOfInsert<V>(o: seq<Property<V>>, p: Property<V>, pos: nat)
    requires pos <= |o|
    ensures KeysOf(o[..pos] + [p] + o[pos..]) == KeysOf(o)[..pos] + [p.key] + KeysOf(o)[pos..]
  {
    KeysOfConcat(o[..pos] + [p], o[pos..]);
    KeysOfConcat(o[..pos], [p]);
    assert KeysOf([p]) == [p.key];
    assert KeysOf(o[..pos]) == KeysOf(o)[..pos];
    assert KeysOf(o[pos..]) == KeysOf(o)[pos..];
  }

  /** A key that may follow every key before `pos` and precede every key from `pos` on may be
      inserted at `pos`. */
  lemma OrderedInsert(ks: seq<string>, k: string, pos: nat)
    requires pos <= |ks| && OrderedKeys(ks)
    requires forall c :: 0 <= c < pos ==> CanFollow(ks[c], k)
    requires forall c :: pos <= c < |ks| ==> CanFollow(k, ks[c])
    ensures OrderedKeys(ks[..pos] + [k] + ks[pos..])
  {
    var rs := ks[..pos] + [k] + ks[pos..];
    forall a, b | 0 <= a < b < |rs| ensures CanFollow(rs[a], rs[b]) {
      var a' := if a < pos then a else a - 1;
      var b' := if b < pos then b else b - 1;
      if a != pos && b != pos {
        assert rs[a] == ks[a'] && rs[b] == ks[b'];
      } else if b == pos {
        assert rs[a] == ks[a];
      } else {
        assert rs[b] == ks[b'];
      }
    }
  }

  /** Every key before the slot of a new key may precede it. */
  lemma FollowedBySlot<V>(o: JsObject<V>, k: string, c: nat)
    requires k !in KeysOf(o) && c < Slot(o, k)
    ensures CanFollow(o[c].key, k)
  {
    assert KeysOf(o)[c] == o[c].key;
  }

  /** A new key may precede every key from its slot on. */
  lemma SlotFollowedBy<V>(o: JsObject<V>, k: string, c: nat)
    requires k !in KeysOf(o) && Slot(o, k) <= c < |o|
    ensures CanFollow(k, o[c].key)
  {
    var pos := Slot(o, k);
    var ks := KeysOf(o);
    assert ks[c] == o[c].key && ks[c] != k;
    if IsArrayIndex(o[c].key) {
      if c > pos {
        assert CanFollow(ks[pos], ks[c]);
      }
      assert IsArrayIndex(ks[pos]) && pos < |o|;
      assert Rank(k) <= Rank(ks[pos]);
      RankInjective(k, o[c].key);
    }
  }

  // ------------------------------------------------------------------ assignment and deletion

  /** `{ ...o, [k]: v }` (equally `o[k] = v`): an existing property keeps its place and takes the
      new value; a new key is inserted where own-property order puts it. */
  function Put<V>(o: JsObject<V>, k: string, v: V): (r: JsObject<V>)
    ensures Get(r, k) == Some(v)
    ensures forall k' :: k' != k ==> Get(r, k') == Get(o, k')
    ensures forall k' :: k' != k ==> (Has(r, k') <==> Has(o, k'))
    ensures Has(o, k) ==> KeysOf(r) == KeysOf(o)
    ensures !Has(o, k) ==> |r| == |o| + 1
    ensures (forall i :: 0 <= i < |o| ==> CanFollow(o[i].key, k)) ==> r == o + [Property(k, v)]
  {
    PutWellFormed(o, k, v);
    Assign(o, k, v)
  }

  /** The sequence `Put` builds, before its order is established. */
  function Assign<V>(o: seq<Property<V>>, k: string, v: V): seq<Property<V>> {
    var j := FindKey(o, k);
    if j < |o| then o[j := Property(k, v)] else Insert(o, Property(k, v))
  }

  lemma PutWellFormed<V>(o: JsObject<V>, k: string, v: V)
    ensures WellFormed(Assign(o, k, v))
    ensures Get(Assign(o, k, v), k) == Some(v)
    ensures forall k' :: k' != k ==> Get(Assign(o, k, v), k') == Get(o, k')
    ensures forall k' :: k' != k ==> (Has(Assign(o, k, v), k') <==> Has(o, k'))
    ensures Has(o, k) ==> KeysOf(Assign(o, k, v)) == KeysOf(o)
    ensures !Has(o, k) ==> |Assign(o, k, v)| == |o| + 1
    ensures (forall i :: 0 <= i < |o| ==> CanFollow(o[i].key, k)) ==> Assign(o, k, v) == o + [Property(k, v)]
  {
    var j := FindKey(o, k);
    var p := Property(k, v);
    if j < |o| {
      KeysOfUpdate(o, j, p);
      Around(o, j);
      UpdateAround(o, j, p);
      PutFacts(o, o[..j], o[j], o[j + 1..], p);
      assert Has(o, k);
    } else {
      PutNew(o, p);
    }
  }

  /** `Put` under a key the object does not have yet inserts it at its slot. */
  lemma PutNew<V>(o: JsObject<V>, p: Property<V>)
    requires FindKey(o, p.key) == |o|
    ensures WellFormed(Insert(o, p))
    ensures Get(Insert(o, p), p.key) == Some(p.value)
    ensures forall k' :: k' != p.key ==> Get(Insert(o, p), k') == Get(o, k')
    ensures forall k' :: k' != p.key ==> (Has(Insert(o, p), k') <==> Has(o, k'))
    ensures !Has(o, p.key) && |Insert(o, p)| == |o| + 1
    ensures (forall i :: 0 <= i < |o| ==> CanFollow(o[i].key, p.key)) ==> Insert(o, p) == o + [p]
  {
    InsertWellFormed(o, p);
    var pos := Slot(o, p.key);
    SplitAt(o, pos);
    PutFacts(o, o[..pos], p, o[pos..], p);
    if forall i :: 0 <= i < |o| ==> CanFollow(o[i].key, p.key) {
      AppendIsInsert(o, p);
    }
  }

  /** Replacing a property's value keeps every key where it was. */
  lemma KeysOfUpdate<V>(o: seq<Property<V>>, j: nat, p: Property<V>)
    requires j < |o| && o[j].key == p.key
    ensures KeysOf(o[j := p]) == KeysOf(o)
  {
  }

  lemma SplitAt<T>(s: seq<T>, j: nat)
    requires j <= |s|
    ensures s == s[..j] + s[j..]
  {
  }

  lemma UpdateAround<T>(s: seq<T>, j: nat, x: T)
    requires j < |s|
    ensures s[j := x] == s[..j] + [x] + s[j + 1..]
  {
  }

  lemma PutFacts<V>(o: seq<Property<V>>, a: seq<Property<V>>, old_p: Property<V>,
                    b: seq<Property<V>>, p: Property<V>)
    requires old_p.key == p.key && !Has(a, p.key)
    requires o == a + [old_p] + b || (o == a + b && old_p == p)
    ensures Get(a + [p] + b, p.key) == Some(p.value)
    ensures forall k' :: k' != p.key ==> Get(a + [p] + b, k') == Get(o, k')
    ensures forall k' :: k' != p.key ==> (Has(a + [p] + b, k') <==> Has(o, k'))
  {
    GetSplit(a, p, b, p.key);
    forall k' | k' != p.key
      ensures Get(a + [p] + b, k') == Get(o, k')
      ensures Has(a + [p] + b, k') <==> Has(o, k')
    {
      GetSplit(a, p, b, k');
      GetSplit(a, old_p, b, k');
    }
  }

  /** A key that can follow every key of the object is inserted at the end. */
  lemma AppendIsInsert<V>(o: seq<Property<V>>, p: Property<V>)
    requires forall i :: 0 <= i < |o| ==> CanFollow(o[i].key, p.key)
    ensures Insert(o, p) == o + [p]
  {
    var pos := Slot(o, p.key);
    assert pos < |o| ==> CanFollow(o[pos].key, p.key);
    assert o[..pos] == o && o[pos..] == [];
  }

  /** `delete o[k]`: the property named `k` goes; every other keeps its place. */
  function Remove<V>(o: JsObject<V>, k: string): (r: JsObject<V>)
    ensures Get(r, k) == None && !Has(r, k)
    ensures forall k' :: k' != k ==> Get(r, k') == Get(o, k')
    ensures forall k' :: k' != k ==> (Has(r, k') <==> Has(o, k'))
    ensures |r| == if Has(o, k) then |o| - 1 else |o|
    ensures Has(o, k) ==> KeysOf(r) == KeysOf(o)[..FindKey(o, k)] + KeysOf(o)[FindKey(o, k) + 1..]
    ensures !Has(o, k) ==> r == o
  {
    var j := FindKey(o, k);
    if j < |o| then
      RemoveWellFormed(o, j);
      o[..j] + o[j + 1..]
    else
      o
  }

  lemma DropWellFormed<V>(o: JsObject<V>, j: nat)
    requires j < |o|
    ensures WellFormed(o[..j] + o[j + 1..])
    ensures KeysOf(o[..j] + o[j + 1..]) == KeysOf(o)[..j] + KeysOf(o)[j + 1..]
  {
    var a, b := o[..j], o[j + 1..];
    KeysOfConcat(a, b);
    assert KeysOf(a) == KeysOf(o)[..j];
    assert KeysOf(b) == KeysOf(o)[j + 1..];
    OrderedRemove(KeysOf(o), j);
  }

  lemma RemoveWellFormed<V>(o: JsObject<V>, j: nat)
    requires j < |o| && j == FindKey(o, o[j].key)
    ensures WellFormed(o[..j] + o[j + 1..])
    ensures KeysOf(o[..j] + o[j + 1..]) == KeysOf(o)[..j] + KeysOf(o)[j + 1..]
    ensures !Has(o[..j] + o[j + 1..], o[j].key)
    ensures forall k' :: k' != o[j].key ==> Get(o[..j] + o[j + 1..], k') == Get(o, k')
    ensures forall k' :: k' != o[j].key ==> (Has(o[..j] + o[j + 1..], k') <==> Has(o, k'))
  {
    DropWellFormed(o, j);
    PrefixLacks(o, j);
    Around(o, j);
    RemoveFacts(o, o[..j], o[j], o[j + 1..]);
  }

  /** A sequence is its part before `j`, its entry at `j` and its part after `j`. */
  lemma Around<T>(s: seq<T>, j: nat)
    requires j < |s|
    ensures s == s[..j] + [s[j]] + s[j + 1..]
  {
  }

  /** No property before the first one named `k` is named `k`. */
  lemma PrefixLacks<V>(o: seq<Property<V>>, j: nat)
    requires j < |o| && j == FindKey(o, o[j].key)
    ensures !Has(o[..j], o[j].key)
  {
    assert forall i :: 0 <= i < j ==> o[..j][i] == o[i];
  }

  lemma RemoveFacts<V>(o: JsObject<V>, a: seq<Property<V>>, p: Property<V>, b: seq<Property<V>>)
    requires o == a + [p] + b && !Has(a, p.key)
    ensures !Has(a + b, p.key)
    ensures forall k' :: k' != p.key ==> Get(a + b, k') == Get(o, k')
    ensures forall k' :: k' != p.key ==> (Has(a + b, k') <==> Has(o, k'))
  {
    GetConcat(a, b, p.key);
    var f := FindKey(b, p.key);
    assert f < |b| ==> o[|a| + 1 + f] == b[f] && CanFollow(KeysOf(o)[|a|], KeysOf(o)[|a| + 1 + f]);
    forall k' | k' != p.key
      ensures Get(a + b, k') == Get(o, k')
      ensures Has(a + b, k') <==> Has(o, k')
    {
      GetSplit(a, p, b, k');
    }
  }
}
