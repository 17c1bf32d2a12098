/** The directory hash map as a table of buckets: an inline first entry and a
    chain, and the finite map such a table represents. */
module HashSpec {
  import opened Basics

  datatype Entry<K, V> = Entry(key: K, value: V)

  datatype Bucket<K, V> = Bucket(head: Option<Entry<K, V>>, chain: seq<Entry<K, V>>)

  const DEFAULT_SIZE: nat := 50

  // ----- one bucket -----

  function Entries<K, V>(b: Bucket<K, V>): seq<Entry<K, V>> {
    match b.head
    case None => b.chain
    case Some(e) => [e] + b.chain
  }

  /** Position of the first entry with the key, or the number of entries */
  function Find<K(==), V>(es: seq<Entry<K, V>>, k: K, from: nat): (p: nat)
    requires from <= |es|
    ensures from <= p <= |es|
    ensures forall j :: from <= j < p ==> es[j].key != k
    ensures p < |es| ==> es[p].key == k
    decreases |es| - from
  {
    if from == |es| || es[from].key == k then from else Find(es, k, from + 1)
  }

  /** An empty head takes the entry; a known key gets the value; a new one goes to
      the front of the chain */
  function BucketPut<K(==), V>(b: Bucket<K, V>, k: K, v: V): Bucket<K, V> {
    if b.head == None then Bucket(Some(Entry(k, v)), b.chain)
    else if b.head.value.key == k then Bucket(Some(Entry(b.head.value.key, v)), b.chain)
    else
      var p := Find(b.chain, k, 0);
      if p < |b.chain| then Bucket(b.head, b.chain[p := Entry(b.chain[p].key, v)])
      else Bucket(b.head, [Entry(k, v)] + b.chain)
  }

  /** A removed head is replaced by the first of the chain */
  function BucketRemove<K(==), V>(b: Bucket<K, V>, k: K): Bucket<K, V> {
    if b.head == None then b
    else if b.head.value.key == k then
      if b.chain != [] then Bucket(Some(b.chain[0]), b.chain[1..]) else Bucket(None, [])
    else
      var p := Find(b.chain, k, 0);
      if p < |b.chain| then Bucket(b.head, b.chain[..p] + b.chain[p + 1..]) else b
  }

  function BucketGet<K(==), V>(b: Bucket<K, V>, k: K): Option<V> {
    var es := Entries(b);
    var p := Find(es, k, 0);
    if b.head != None && p < |es| then Some(es[p].value) else None
  }

  // ----- the map a table represents -----

  function Index<K>(h: K -> nat, k: K, n: nat): (i: nat)
    requires n > 0
    ensures i < n
  {
    h(k) % n
  }

  ghost predicate DistinctKeys<K, V>(es: seq<Entry<K, V>>) {
    forall i, j :: 0 <= i < j < |es| ==> es[i].key != es[j].key
  }

  ghost predicate Agrees<K, V>(es: seq<Entry<K, V>>, m: map<K, V>) {
    forall j :: 0 <= j < |es| ==> es[j].key in m && m[es[j].key] == es[j].value
  }

  ghost predicate Contains<K, V>(es: seq<Entry<K, V>>, k: K) {
    exists j :: 0 <= j < |es| && es[j].key == k
  }

  /** Bucket i holds exactly the entries of m whose keys hash to i, each once, and
      has no chain without a head */
  ghost predicate BucketOk<K(!new), V>(b: Bucket<K, V>, h: K -> nat, n: nat, i: nat, m: map<K, V>)
    requires n > 0
  {
    && (b.head == None ==> b.chain == [])
    && DistinctKeys(Entries(b))
    && Agrees(Entries(b), m)
    && (forall k :: Contains(Entries(b), k) <==> k in m && Index(h, k, n) == i)
  }

  ghost predicate Represents<K(!new), V>(t: seq<Bucket<K, V>>, h: K -> nat, m: map<K, V>) {
    |t| > 0 && forall i :: 0 <= i < |t| ==> BucketOk(t[i], h, |t|, i, m)
  }

  lemma FindDecides<K, V>(es: seq<Entry<K, V>>, k: K)
    ensures Find(es, k, 0) < |es| <==> Contains(es, k)
  {
  }

  /** What a change of a bucket's entries does to keys and values */
  ghost predicate Updated<K(!new), V>(es: seq<Entry<K, V>>, es': seq<Entry<K, V>>, k: K, v: V, m: map<K, V>) {
    && DistinctKeys(es') && Agrees(es', m[k := v])
    && (forall x :: Contains(es', x) <==> Contains(es, x) || x == k)
  }

  lemma ReplaceEntry<K(!new), V>(es: seq<Entry<K, V>>, q: nat, v: V, m: map<K, V>)
    requires DistinctKeys(es) && Agrees(es, m) && q < |es|
    ensures Updated(es, es[q := Entry(es[q].key, v)], es[q].key, v, m)
  {
    var es' := es[q := Entry(es[q].key, v)];
    forall x ensures Contains(es', x) <==> Contains(es, x) || x == es[q].key {
      assert es'[q].key == es[q].key;
      if Contains(es, x) {
        var j :| 0 <= j < |es| && es[j].key == x;
        assert es'[j].key == x;
      }
    }
  }

  lemma InsertEntry<K(!new), V>(es: seq<Entry<K, V>>, k: K, v: V, m: map<K, V>)
    requires DistinctKeys(es) && Agrees(es, m) && es != [] && !Contains(es, k)
    ensures Updated(es, [es[0], Entry(k, v)] + es[1..], k, v, m)
  {
    var es' := [es[0], Entry(k, v)] + es[1..];
    assert forall j :: 2 <= j < |es'| ==> es'[j] == es[j - 1];
    assert es'[0] == es[0] && es'[1] == Entry(k, v);
    forall x ensures Contains(es', x) <==> Contains(es, x) || x == k {
      if Contains(es, x) {
        var j :| 0 <= j < |es| && es[j].key == x;
        assert es'[if j == 0 then 0 else j + 1].key == x;
      }
    }
  }

  lemma PutIntoEmpty<K(!new), V>(k: K, v: V, m: map<K, V>)
    ensures Updated([], [Entry(k, v)], k, v, m)
  {
    assert [Entry(k, v)][0].key == k;
  }

  lemma NotInEither<K(!new), V>(b: Bucket<K, V>, k: K)
    requires b.head != None && b.head.value.key != k && Find(b.chain, k, 0) == |b.chain|
    ensures !Contains(Entries(b), k)
  {
    var es := Entries(b);
    forall j | 0 <= j < |es| ensures es[j].key != k {
      assert j > 0 ==> es[j] == b.chain[j - 1];
    }
  }

  lemma PutEntries<K(!new), V>(b: Bucket<K, V>, k: K, v: V, m: map<K, V>)
    requires (b.head == None ==> b.chain == []) && DistinctKeys(Entries(b)) && Agrees(Entries(b), m)
    ensures BucketPut(b, k, v).head != None
    ensures Updated(Entries(b), Entries(BucketPut(b, k, v)), k, v, m)
  {
    hide DistinctKeys, Agrees, Contains, Updated;
    var es, es' := Entries(b), Entries(BucketPut(b, k, v));
    if b.head == None {
      assert es == [] && es' == [Entry(k, v)];
      PutIntoEmpty(k, v, m);
    } else {
      var p := Find(b.chain, k, 0);
      if b.head.value.key == k {
        ReplaceEntry(es, 0, v, m);
        assert es' == es[0 := Entry(k, v)];
      } else if p < |b.chain| {
        ReplaceEntry(es, p + 1, v, m);
        assert es' == es[p + 1 := Entry(k, v)];
      } else {
        NotInEither(b, k);
        InsertEntry(es, k, v, m);
        assert es' == [es[0], Entry(k, v)] + es[1..];
      }
    }
  }

  lemma RemoveEntry<K(!new), V>(es: seq<Entry<K, V>>, p: nat, m: map<K, V>)
    requires DistinctKeys(es) && Agrees(es, m) && p < |es|
    ensures var es' := es[..p] + es[p + 1..];
            && DistinctKeys(es') && Agrees(es', m - {es[p].key})
            && (forall x :: Contains(es', x) <==> Contains(es, x) && x != es[p].key)
  {
    var es' := es[..p] + es[p + 1..];
    assert forall j :: 0 <= j < p ==> es'[j] == es[j];
    assert forall j :: p <= j < |es'| ==> es'[j] == es[j + 1];
    forall x ensures Contains(es', x) <==> Contains(es, x) && x != es[p].key {
      if Contains(es, x) && x != es[p].key {
        var j :| 0 <= j < |es| && es[j].key == x;
        assert es'[if j < p then j else j - 1].key == x;
      }
    }
  }

  lemma RemoveEntries<K(!new), V>(b: Bucket<K, V>, k: K, m: map<K, V>)
    requires (b.head == None ==> b.chain == []) && DistinctKeys(Entries(b)) && Agrees(Entries(b), m)
    ensures var b' := BucketRemove(b, k);
            && (b'.head == None ==> b'.chain == [])
            && DistinctKeys(Entries(b')) && Agrees(Entries(b'), m - {k})
            && (forall x :: Contains(Entries(b'), x) <==> Contains(Entries(b), x) && x != k)
  {
    var es, es' := Entries(b), Entries(BucketRemove(b, k));
    if b.head != None {
      var p := Find(b.chain, k, 0);
      if b.head.value.key == k {
        RemoveEntry(es, 0, m);
        assert es' == es[..0] + es[1..];
      } else if p < |b.chain| {
        RemoveEntry(es, p + 1, m);
        assert es' == es[..p + 1] + es[p + 2..];
      } else {
        NotInEither(b, k);
      }
    }
  }

  lemma AgreesElsewhere<K(!new), V>(es: seq<Entry<K, V>>, m: map<K, V>, k: K, v: V)
    requires Agrees(es, m) && !Contains(es, k)
    ensures Agrees(es, m[k := v]) && Agrees(es, m - {k})
  {
  }

  /** Putting updates the represented map at the key and nowhere else */
  lemma PutRepresents<K(!new), V>(t: seq<Bucket<K, V>>, h: K -> nat, m: map<K, V>, k: K, v: V)
    requires Represents(t, h, m)
    ensures var i := Index(h, k, |t|);
            Represents(t[i := BucketPut(t[i], k, v)], h, m[k := v])
  {
    var n := |t|;
    var i := Index(h, k, n);
    var t' := t[i := BucketPut(t[i], k, v)];
    assert BucketOk(t[i], h, n, i, m);
    PutEntries(t[i], k, v, m);
    forall j | 0 <= j < n ensures BucketOk(t'[j], h, n, j, m[k := v]) {
      assert BucketOk(t[j], h, n, j, m);
      if j != i {
        AgreesElsewhere(Entries(t[j]), m, k, v);
      }
    }
  }

  /** Lookup in the bucket is lookup in the represented map */
  lemma GetRepresents<K(!new), V>(t: seq<Bucket<K, V>>, h: K -> nat, m: map<K, V>, k: K)
    requires Represents(t, h, m)
    ensures BucketGet(t[Index(h, k, |t|)], k) == if k in m then Some(m[k]) else None
  {
    var i := Index(h, k, |t|);
    assert BucketOk(t[i], h, |t|, i, m);
    FindDecides(Entries(t[i]), k);
  }

  /** Removing drops the key from the represented map and nothing else */
  lemma RemoveRepresents<K(!new), V>(t: seq<Bucket<K, V>>, h: K -> nat, m: map<K, V>, k: K)
    requires Represents(t, h, m)
    ensures var i := Index(h, k, |t|);
            Represents(t[i := BucketRemove(t[i], k)], h, m - {k})
  {
    var n := |t|;
    var i := Index(h, k, n);
    var t' := t[i := BucketRemove(t[i], k)];
    assert BucketOk(t[i], h, n, i, m);
    RemoveEntries(t[i], k, m);
    forall j | 0 <= j < n ensures BucketOk(t'[j], h, n, j, m - {k}) {
      assert BucketOk(t[j], h, n, j, m);
    }
  }

  lemma EmptyRepresents<K(!new), V>(t: seq<Bucket<K, V>>, h: K -> nat)
    requires |t| > 0 && forall i :: 0 <= i < |t| ==> t[i] == Bucket(None, [])
    ensures Represents(t, h, map[])
  {
  }

  // ----- all entries of a table -----

  /** The entries in the order resetHashMap copies them out */
  function Flat<K, V>(t: seq<Bucket<K, V>>): seq<Entry<K, V>> {
    if t == [] then [] else Flat(t[..|t| - 1]) + Entries(t[|t| - 1])
  }

  /** The entries of the buckets below hi: one for each key that hashes there */
  lemma {:induction false} FlatBelow<K(!new), V>(t: seq<Bucket<K, V>>, h: K -> nat, m: map<K, V>, hi: nat)
    requires Represents(t, h, m) && hi <= |t|
    ensures DistinctKeys(Flat(t[..hi])) && Agrees(Flat(t[..hi]), m)
    ensures forall k :: Contains(Flat(t[..hi]), k) <==> k in m && Index(h, k, |t|) < hi
  {
    hide Entries;
    if hi > 0 {
      FlatBelow(t, h, m, hi - 1);
      assert t[..hi][..hi - 1] == t[..hi - 1];
      assert BucketOk(t[hi - 1], h, |t|, hi - 1, m);
      JoinEntries(Flat(t[..hi - 1]), Entries(t[hi - 1]), m);
    }
  }

  lemma JoinEntries<K(!new), V>(a: seq<Entry<K, V>>, b: seq<Entry<K, V>>, m: map<K, V>)
    requires DistinctKeys(a) && DistinctKeys(b) && Agrees(a, m) && Agrees(b, m)
    requires forall k :: Contains(a, k) ==> !Contains(b, k)
    ensures DistinctKeys(a + b) && Agrees(a + b, m)
    ensures forall k :: Contains(a + b, k) <==> Contains(a, k) || Contains(b, k)
  {
    var c := a + b;
    assert forall j :: 0 <= j < |a| ==> c[j] == a[j];
    assert forall j :: |a| <= j < |c| ==> c[j] == b[j - |a|];
    forall i, j | 0 <= i < j < |c| ensures c[i].key != c[j].key {
      if i < |a| <= j {
        assert Contains(a, a[i].key) && Contains(b, b[j - |a|].key);
      }
    }
    forall k ensures Contains(c, k) <==> Contains(a, k) || Contains(b, k) {
      if Contains(a, k) {
        var j :| 0 <= j < |a| && a[j].key == k;
        assert c[j].key == k;
      }
      if Contains(b, k) {
        var j :| 0 <= j < |b| && b[j].key == k;
        assert c[|a| + j].key == k;
      }
    }
  }

  /** Putting entries one after the other */
  function PutAll<K(==), V>(m: map<K, V>, es: seq<Entry<K, V>>): map<K, V> {
    if es == [] then m else PutAll(m, es[..|es| - 1])[es[|es| - 1].key := es[|es| - 1].value]
  }

  lemma LastEntry<K(!new), V>(es: seq<Entry<K, V>>)
    requires es != []
    ensures forall k :: Contains(es, k) <==> Contains(es[..|es| - 1], k) || k == es[|es| - 1].key
  {
    var n := |es| - 1;
    forall k ensures Contains(es, k) <==> Contains(es[..n], k) || k == es[n].key {
      if Contains(es[..n], k) {
        var j :| 0 <= j < n && es[..n][j].key == k;
        assert es[j].key == k;
      }
      if Contains(es, k) {
        var j :| 0 <= j <= n && es[j].key == k;
        assert j < n ==> es[..n][j].key == k;
      }
    }
  }

  lemma {:induction false} PutAllDistinct<K(!new), V>(es: seq<Entry<K, V>>)
    requires DistinctKeys(es)
    ensures var m := PutAll(map[], es);
            Agrees(es, m) && |m| == |es| && (forall k :: k in m <==> Contains(es, k))
  {
    if es != [] {
      var n := |es| - 1;
      var init, e := es[..n], es[n];
      PutAllDistinct(init);
      assert forall j :: 0 <= j < n ==> init[j] == es[j];
      var m := PutAll(map[], init);
      assert !Contains(init, e.key);
      assert m[e.key := e.value].Keys == m.Keys + {e.key};
      assert |m[e.key := e.value].Keys| == |m.Keys| + 1;
      LastEntry(es);
    }
  }

  /** A table holds as many entries as its map has keys, and putting them all into
      an empty table gives the same map: what makes rehashing safe */
  lemma RehashKeepsMap<K(!new), V>(t: seq<Bucket<K, V>>, h: K -> nat, m: map<K, V>)
    requires Represents(t, h, m)
    ensures |Flat(t)| == |m| && DistinctKeys(Flat(t))
    ensures PutAll(map[], Flat(t)) == m
  {
    assert t[..|t|] == t;
    FlatBelow(t, h, m, |t|);
    PutAllDistinct(Flat(t));
    SameEntries(Flat(t), PutAll(map[], Flat(t)), m);
  }

  lemma SameEntries<K(!new), V>(es: seq<Entry<K, V>>, r: map<K, V>, m: map<K, V>)
    requires Agrees(es, r) && Agrees(es, m)
    requires forall k :: k in r <==> Contains(es, k)
    requires forall k :: k in m <==> Contains(es, k)
    ensures r == m
  {
    forall k | k in m ensures r[k] == m[k] {
      var j :| 0 <= j < |es| && es[j].key == k;
    }
  }
}
