/** The hash map object of the directories: put, get, exists and remove on a table
    that grows and shrinks, each proved against the finite map it stands for. */
module HashClient {
  import opened Basics
  import opened HashSpec

  /** The list sizes reached from the default by doubling and halving */
  ghost predicate Doubled(n: nat) {
    n == DEFAULT_SIZE || (n > DEFAULT_SIZE && n % 2 == 0 && Doubled(n / 2))
  }

  lemma MapSizes<K, V>(m: map<K, V>, k: K, v: V)
    ensures |m[k := v]| == if k in m then |m| else |m| + 1
    ensures |m - {k}| == if k in m then |m| - 1 else |m|
  {
    assert m[k := v].Keys == m.Keys + {k};
    assert (m - {k}).Keys == m.Keys - {k};
  }

  lemma NoKey<K(!new), V>(t: seq<Bucket<K, V>>, h: K -> nat, m: map<K, V>, k: K)
    requires Represents(t, h, m)
    ensures var b := t[Index(h, k, |t|)];
            k in m <==> b.head.Some? && (b.head.value.key == k || Find(b.chain, k, 0) < |b.chain|)
  {
    var b := t[Index(h, k, |t|)];
    assert BucketOk(b, h, |t|, Index(h, k, |t|), m);
    if b.head.Some? {
      var es := Entries(b);
      assert es[0] == b.head.value && (forall j :: 0 <= j < |b.chain| ==> es[j + 1] == b.chain[j]);
      if b.head.value.key != k && Find(b.chain, k, 0) == |b.chain| {
        NotInEither(b, k);
      } else {
        var p := Find(b.chain, k, 0);
        assert Contains(es, k) by {
          assert es[if b.head.value.key == k then 0 else p + 1].key == k;
        }
      }
    }
  }

  lemma HeadFirst<K(!new), V>(t: seq<Bucket<K, V>>, h: K -> nat, m: map<K, V>, i: nat)
    requires Represents(t, h, m) && i < |t|
    ensures t[i].head.None? ==> Entries(t[i]) == []
  {
    assert BucketOk(t[i], h, |t|, i, m);
  }

  /** What is copied out up to some bucket is the beginning of what is copied out */
  lemma {:induction false} FlatPrefix<K, V>(t: seq<Bucket<K, V>>, i: nat)
    requires i < |t|
    ensures Flat(t[..i + 1]) == Flat(t[..i]) + Entries(t[i])
    ensures Flat(t[..i + 1]) <= Flat(t)
  {
    hide Entries;
    assert t[..i + 1][..i] == t[..i] && t[..i + 1][i] == t[i];
    if i + 1 < |t| {
      var t' := t[..|t| - 1];
      FlatPrefix(t', i);
      assert t'[..i + 1] == t[..i + 1];
    } else {
      assert t[..i + 1] == t;
    }
  }

  /** Each copied entry has a key not put before */
  lemma PutAllNext<K(!new), V>(es: seq<Entry<K, V>>, i: nat)
    requires DistinctKeys(es) && i < |es|
    ensures es[i].key !in PutAll(map[], es[..i]) && |PutAll(map[], es[..i])| == i
    ensures PutAll(map[], es[..i + 1]) == PutAll(map[], es[..i])[es[i].key := es[i].value]
  {
    assert es[..i + 1][..i] == es[..i];
    PutAllDistinct(es[..i]);
  }

  lemma NothingYet<K, V>(t: seq<Bucket<K, V>>, es: seq<Entry<K, V>>)
    ensures Flat(t[..0]) == [] && PutAll(map[], es[..0]) == map[]
  {
  }

  /** A halved table that keeps the discipline was a doubled one */
  lemma HalvedAgain(n: nat)
    requires Doubled(n)
    ensures n >= DEFAULT_SIZE && n % 2 == 0 && (n != DEFAULT_SIZE ==> Doubled(n / 2))
  {
  }

  class HashMap<K(==, !new), V> {
    const hash: K -> nat
    var size: nat
    var buckets: array<Bucket<K, V>>
    ghost var Contents: map<K, V>

    /** size counts the keys. A table that is full is one too small to grow: twice
        its size is below the default. */
    ghost predicate Valid()
      reads this, buckets
    {
      && Represents(buckets[..], hash, Contents)
      && size == |Contents|
      && (size < buckets.Length || 2 * buckets.Length < DEFAULT_SIZE)
    }

    /** The resize discipline of a map created with the default size */
    ghost predicate Loaded()
      reads this, buckets
    {
      && size < buckets.Length && Doubled(buckets.Length)
      && (buckets.Length == DEFAULT_SIZE || 2 * size >= buckets.Length)
    }

    constructor (hash: K -> nat, listSize: int)
      requires listSize == -1 || listSize > 0
      ensures Valid() && Contents == map[] && fresh(buckets)
      ensures this.hash == hash && buckets.Length == if listSize == -1 then DEFAULT_SIZE else listSize
      ensures buckets.Length == DEFAULT_SIZE ==> Loaded()
    {
      this.hash, size, Contents := hash, 0, map[];
      buckets := new Bucket<K, V>[if listSize == -1 then DEFAULT_SIZE else listSize](_ => Bucket(None, []));
      new;
      EmptyRepresents(buckets[..], hash);
    }

    method Exists(k: K) returns (found: bool)
      requires Valid()
      ensures found <==> k in Contents
    {
      NoKey(buckets[..], hash, Contents, k);
      var b := buckets[Index(hash, k, buckets.Length)];
      if b.head.None? {
        return false;
      }
      if b.head.value.key == k {
        return true;
      }
      var p := 0;
      while p < |b.chain|
        invariant p <= |b.chain| && Find(b.chain, k, 0) == Find(b.chain, k, p)
      {
        if b.chain[p].key == k {
          return true;
        }
        p := p + 1;
      }
      return false;
    }

    /** NULL for an absent key, otherwise the value last put */
    method Get(k: K) returns (v: Option<V>)
      requires Valid()
      ensures v == if k in Contents then Some(Contents[k]) else None
    {
      GetRepresents(buckets[..], hash, Contents, k);
      var found := Exists(k);
      if found {
        var es := Entries(buckets[Index(hash, k, buckets.Length)]);
        var p := 0;
        while p < |es|
          invariant p <= |es| && Find(es, k, 0) == Find(es, k, p)
        {
          if es[p].key == k {
            return Some(es[p].value);
          }
          p := p + 1;
        }
      }
      v := None;
    }

    /** The part of defaultPut before the resize check; grown tells whether the
        key was new */
    method Store(k: K, v: V) returns (grown: bool)
      requires Valid()
      modifies this`size, this`Contents, buckets
      ensures Represents(buckets[..], hash, Contents) && size == |Contents|
      ensures Contents == old(Contents)[k := v] && grown == (k !in old(Contents))
    {
      PutRepresents(buckets[..], hash, Contents, k, v);
      NoKey(buckets[..], hash, Contents, k);
      MapSizes(Contents, k, v);
      var i := Index(hash, k, buckets.Length);
      var b := buckets[i];
      ghost var t := buckets[..];
      Contents := Contents[k := v];
      grown := false;
      if b.head.None? {
        size := size + 1;
        buckets[i] := Bucket(Some(Entry(k, v)), b.chain);
        grown := true;
      } else if b.head.value.key == k {
        buckets[i] := Bucket(Some(Entry(b.head.value.key, v)), b.chain);
      } else {
        var p := 0;
        while p < |b.chain| && b.chain[p].key != k
          invariant p <= |b.chain| && Find(b.chain, k, 0) == Find(b.chain, k, p)
        {
          p := p + 1;
        }
        if p < |b.chain| {
          buckets[i] := Bucket(b.head, b.chain[p := Entry(b.chain[p].key, v)]);
        } else {
          buckets[i] := Bucket(b.head, [Entry(k, v)] + b.chain);
          size := size + 1;
          grown := true;
        }
      }
      assert buckets[..] == t[i := BucketPut(b, k, v)];
    }

    /** defaultPut: one key gets the value. A new key that fills the table doubles
        it, and a put while a table is being rebuilt never resizes again. */
    method Put(k: K, v: V)
      requires Valid()
      modifies this`size, this`Contents, this`buckets, buckets
      ensures Valid() && Contents == old(Contents)[k := v]
      ensures buckets == old(buckets) || fresh(buckets)
      ensures buckets.Length ==
                old(if k !in Contents && |Contents| + 1 >= buckets.Length && 2 * buckets.Length >= DEFAULT_SIZE
                    then 2 * buckets.Length else buckets.Length)
      ensures k in old(Contents) || old(|Contents| + 1 < buckets.Length) ==> buckets == old(buckets)
      ensures old(Loaded()) ==> Loaded()
      decreases if |Contents[k := v]| >= buckets.Length then 2 else 0, 0
    {
      MapSizes(Contents, k, v);
      var grown := Store(k, v);
      if grown && size >= buckets.Length {
        Resize(buckets.Length * 2);
      }
    }

    /** resetHashMap: the represented map survives; below the default size it is
        left alone */
    method Resize(n: nat)
      requires Represents(buckets[..], hash, Contents) && size == |Contents|
      requires size < n || n < DEFAULT_SIZE
      modifies this`size, this`Contents, this`buckets
      ensures Represents(buckets[..], hash, Contents) && size == |Contents| && Contents == old(Contents)
      ensures n < DEFAULT_SIZE ==> buckets == old(buckets)
      ensures n >= DEFAULT_SIZE ==> fresh(buckets) && buckets.Length == n
      decreases 1, 1
    {
      hide Represents, Flat, DistinctKeys, PutAll, Doubled, Loaded;
      if n < DEFAULT_SIZE {
        return;
      }
      ghost var m := Contents;
      ghost var t := buckets[..];
      RehashKeepsMap(t, hash, m);
      var temp := CopyOut();
      ghost var es := Flat(t);
      buckets := new Bucket<K, V>[n](_ => Bucket(None, []));
      EmptyRepresents(buckets[..], hash);
      size, Contents := 0, map[];
      PutBack(temp, es);
    }

    /** Puts the copied entries into the new table; none of the puts resizes it */
    method PutBack(temp: array<Option<Entry<K, V>>>, ghost es: seq<Entry<K, V>>)
      requires Valid() && Contents == map[]
      requires DistinctKeys(es) && temp.Length == |es| < buckets.Length
      requires forall x :: 0 <= x < |es| ==> temp[x] == Some(es[x])
      modifies this`size, this`Contents, this`buckets, buckets
      ensures Valid() && Contents == PutAll(map[], es)
      ensures buckets == old(buckets)
      decreases 1, 0
    {
      hide Represents, DistinctKeys, PutAll, Loaded;
      var i, count := 0, temp.Length;
      NothingYet([], es);
      while i < count
        invariant i <= count
        invariant Valid() && buckets == old(buckets) && size == i && Contents == PutAll(map[], es[..i])
        invariant temp[..] == old(temp[..])
      {
        PutAllNext(es, i);
        MapSizes(Contents, es[i].key, es[i].value);
        Put(temp[i].value.key, temp[i].value.value);
        i := i + 1;
      }
      assert es[..i] == es;
    }

    /** Copies every entry out, filling the size cells of the temporary list
        exactly */
    method CopyOut() returns (temp: array<Option<Entry<K, V>>>)
      requires Represents(buckets[..], hash, Contents) && size == |Contents|
      ensures fresh(temp) && temp.Length == size == |Flat(buckets[..])|
      ensures forall x :: 0 <= x < size ==> temp[x] == Some(Flat(buckets[..])[x])
    {
      hide Represents, Flat, Entries, DistinctKeys, PutAll;
      ghost var t := buckets[..];
      RehashKeepsMap(t, hash, Contents);
      temp := new Option<Entry<K, V>>[size](_ => None);
      var i, count := 0, 0;
      NothingYet(t, []);
      while i < buckets.Length
        invariant i <= buckets.Length && buckets[..] == t
        invariant count == |Flat(t[..i])| && Flat(t[..i]) <= Flat(t)
        invariant forall x :: 0 <= x < count ==> temp[x] == Some(Flat(t)[x])
      {
        HeadFirst(t, hash, Contents, i);
        FlatPrefix(t, i);
        if buckets[i].head.Some? {
          var es, j := Entries(buckets[i]), 0;
          ghost var start := count;
          while j < |es|
            invariant j <= |es| && count == start + j
            invariant forall x :: 0 <= x < count ==> temp[x] == Some(Flat(t)[x])
          {
            temp[count] := Some(es[j]);
            count, j := count + 1, j + 1;
          }
        }
        i := i + 1;
      }
      assert t[..i] == t;
    }

    /** Takes the key's entry out of its bucket, if there is one */
    method Unlink(k: K) returns (found: bool)
      requires Valid()
      modifies this`size, this`Contents, buckets
      ensures Represents(buckets[..], hash, Contents) && size == |Contents|
      ensures Contents == old(Contents) - {k} && found == (k in old(Contents))
    {
      RemoveRepresents(buckets[..], hash, Contents, k);
      NoKey(buckets[..], hash, Contents, k);
      if k in Contents {
        MapSizes(Contents, k, Contents[k]);
      } else {
        assert Contents - {k} == Contents;
      }
      var i := Index(hash, k, buckets.Length);
      var b := buckets[i];
      ghost var t := buckets[..];
      Contents := Contents - {k};
      found := false;
      if b.head.None? {
      } else if b.head.value.key == k {
        size := size - 1;
        buckets[i] := if b.chain != [] then Bucket(Some(b.chain[0]), b.chain[1..]) else Bucket(None, []);
        found := true;
      } else {
        var p := 0;
        while p < |b.chain| && b.chain[p].key != k
          invariant p <= |b.chain| && Find(b.chain, k, 0) == Find(b.chain, k, p)
        {
          p := p + 1;
        }
        if p < |b.chain| {
          size := size - 1;
          buckets[i] := Bucket(b.head, b.chain[..p] + b.chain[p + 1..]);
          found := true;
        }
      }
      assert buckets[..] == t[i := BucketRemove(b, k)];
    }

    /** defaultRemove: the key is gone. A table less than half full is halved, but
        never below the default size. */
    method Remove(k: K)
      requires Valid()
      modifies this`size, this`Contents, this`buckets, buckets
      ensures Valid() && Contents == old(Contents) - {k}
      ensures buckets == old(buckets) || fresh(buckets)
      ensures buckets.Length ==
                old(if k in Contents && |Contents| - 1 < buckets.Length / 2 && buckets.Length / 2 >= DEFAULT_SIZE
                    then buckets.Length / 2 else buckets.Length)
      ensures old(Loaded()) ==> Loaded()
    {
      if k in Contents {
        MapSizes(Contents, k, Contents[k]);
      } else {
        assert Contents - {k} == Contents;
      }
      if Loaded() {
        HalvedAgain(buckets.Length);
      }
      var found := Unlink(k);
      if found && size < buckets.Length / 2 {
        Resize(buckets.Length / 2);
      }
    }
  }
}
