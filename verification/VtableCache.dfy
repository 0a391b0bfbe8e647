/** The hashed vtable cache: buckets of descriptor chains, moved to front on a hit. It answers like a
    plain map from (bucket, buffer, vtable words) to the reference of the vtable already emitted. */
module VtableCache {
  import opened Bytes
  import opened Layout
  import opened Emission

  const HASH_COUNT := 64

  /** The bucket of a 32-bit hash: its top six bits. */
  function Bucket(hash: nat): (b: nat)
    requires hash < TWO_32
    ensures b < HASH_COUNT
  {
    hash / 0x400_0000
  }

  /** Where the vtable was emitted, for which buffer, where its words are cached, and the next
      descriptor of the bucket. Descriptor 0 is the reserved null entry. */
  datatype Desc = Desc(vtRef: int, nestId: nat, vbStart: nat, next: nat)

  datatype Key = Key(bucket: nat, nestId: nat, words: seq<int>)

  type Known = map<Key, int>

  ghost predicate Cached(vd: seq<Desc>, vb: seq<int>, i: nat) {
    && 0 < i < |vd| && vd[i].vbStart < |vb|
    && vb[vd[i].vbStart] >= 4 && vd[i].vbStart + vb[vd[i].vbStart] / 2 <= |vb|
  }

  ghost function WordsOf(vd: seq<Desc>, vb: seq<int>, i: nat): seq<int>
    requires Cached(vd, vb, i)
  {
    vb[vd[i].vbStart..vd[i].vbStart + vb[vd[i].vbStart] / 2]
  }

  ghost function KeyOf(vd: seq<Desc>, vb: seq<int>, b: nat, i: nat): Key {
    if Cached(vd, vb, i) then Key(b, vd[i].nestId, WordsOf(vd, vb, i)) else Key(b, 0, [])
  }

  function After(chain: seq<nat>, k: nat): nat { if k < |chain| then chain[k] else 0 }

  /** Element k of a chain is linked to the next one. */
  ghost predicate LinkOk(vd: seq<Desc>, chain: seq<nat>, k: nat) {
    k < |chain| && chain[k] < |vd| && vd[chain[k]].next == After(chain, k + 1)
  }

  /** The linked list that starts at `head` is `chain`, and its descriptors belong to bucket b. */
  ghost predicate ChainOk(head: nat, vd: seq<Desc>, vb: seq<int>, owner: map<nat, nat>, b: nat, chain: seq<nat>) {
    && head == After(chain, 0)
    && (forall k | 0 <= k < |chain| :: Cached(vd, vb, chain[k]))
    && (forall k | 0 <= k < |chain| :: LinkOk(vd, chain, k))
    && (forall k | 0 <= k < |chain| :: chain[k] in owner && owner[chain[k]] == b)
    && (forall j, k | 0 <= j < k < |chain| :: chain[j] != chain[k])
  }

  /** Every chained descriptor is a known vtable, and the other way round. */
  ghost predicate Agrees(vd: seq<Desc>, vb: seq<int>, known: Known, b: nat, chain: seq<nat>) {
    && (forall k | 0 <= k < |chain| ::
          var key := KeyOf(vd, vb, b, chain[k]);
          chain[k] < |vd| && key in known && known[key] == vd[chain[k]].vtRef)
    && (forall key | key in known && key.bucket == b :: exists k ::
         0 <= k < |chain| && KeyOf(vd, vb, b, chain[k]) == key)
  }

  ghost predicate BucketOk(head: nat, vd: seq<Desc>, vb: seq<int>, owner: map<nat, nat>, known: Known, b: nat,
      chain: seq<nat>)
  {
    ChainOk(head, vd, vb, owner, b, chain) && Agrees(vd, vb, known, b, chain)
  }

  /** Descriptors of a bucket as they were, up to links, references and words that others share. */
  ghost predicate SameDescs(vd: seq<Desc>, vb: seq<int>, vd': seq<Desc>, vb': seq<int>, chain: seq<nat>) {
    && |vd| <= |vd'| && vb <= vb'
    && forall k | 0 <= k < |chain| :: chain[k] < |vd| && vd'[chain[k]] == vd[chain[k]]
  }

  lemma SameKey(vd: seq<Desc>, vb: seq<int>, vd': seq<Desc>, vb': seq<int>, b: nat, i: nat)
    requires Cached(vd, vb, i) && i < |vd'| && vb <= vb'
    requires vd'[i].vbStart == vd[i].vbStart && vd'[i].nestId == vd[i].nestId
    ensures Cached(vd', vb', i) && KeyOf(vd', vb', b, i) == KeyOf(vd, vb, b, i)
  {
    assert WordsOf(vd', vb', i) == WordsOf(vd, vb, i);
  }

  /** A bucket whose descriptors did not change is as good as before, whatever became known elsewhere. */
  lemma OtherBucket(head: nat, vd: seq<Desc>, vb: seq<int>, owner: map<nat, nat>, known: Known,
                    vd': seq<Desc>, vb': seq<int>, owner': map<nat, nat>, known': Known, b: nat, chain: seq<nat>)
    requires BucketOk(head, vd, vb, owner, known, b, chain) && SameDescs(vd, vb, vd', vb', chain)
    requires forall i | i in owner :: i in owner' && owner'[i] == owner[i]
    requires forall key: Key | key.bucket == b ::
        (key in known <==> key in known') && (key in known ==> known'[key] == known[key])
    ensures BucketOk(head, vd', vb', owner', known', b, chain)
  {
    hide Cached, WordsOf, KeyOf;
    forall k | 0 <= k < |chain|
      ensures Cached(vd', vb', chain[k]) && KeyOf(vd', vb', b, chain[k]) == KeyOf(vd, vb, b, chain[k])
    {
      SameKey(vd, vb, vd', vb', b, chain[k]);
    }
    forall k | 0 <= k < |chain| ensures LinkOk(vd', chain, k) { assert LinkOk(vd, chain, k); }
    KeyBuckets(vd, vb, b, chain);
    KeyBuckets(vd', vb', b, chain);
  }

  lemma KeyBuckets(vd: seq<Desc>, vb: seq<int>, b: nat, chain: seq<nat>)
    ensures forall k | 0 <= k < |chain| :: KeyOf(vd, vb, b, chain[k]).bucket == b
  {}

  /** Known references denote emissions of exactly the keyed words, made in the keyed buffer. */
  ghost predicate Emitted(known: Known, madeIn: map<int, nat>, vts: map<int, seq<int>>) {
    forall key | key in known ::
      && known[key] - 1 in vts && vts[known[key] - 1] == key.words
      && known[key] in madeIn && madeIn[known[key]] == key.nestId
  }

  lemma EmittedNow(known: Known, madeIn: map<int, nat>, vts: map<int, seq<int>>, key: Key, ref: int)
    requires Emitted(known, madeIn, vts) && ref - 1 !in vts
    ensures Emitted(known[key := ref], madeIn[ref := key.nestId], vts[ref - 1 := key.words])
    ensures Emitted(map[], madeIn[ref := key.nestId], vts[ref - 1 := key.words])
  {}

  lemma EmittedKey(known: Known, madeIn: map<int, nat>, vts: map<int, seq<int>>, key: Key)
    requires Emitted(known, madeIn, vts) && key in known
    ensures known[key] - 1 in vts && vts[known[key] - 1] == key.words
    ensures known[key] in madeIn && madeIn[known[key]] == key.nestId
  {}

  class Cache {
    var ht: seq<nat>
    var vd: seq<Desc>
    /** Cached vtable words. */
    var vb: seq<int>
    var vbFlushLimit: nat

    ghost var chains: seq<seq<nat>>
    ghost var owner: map<nat, nat>
    /** The naive cache, and the buffer each vtable reference was emitted in. */
    ghost var known: Known
    ghost var madeIn: map<int, nat>

    ghost predicate Valid() reads this {
      && |ht| == |chains| == HASH_COUNT && |vd| >= 1
      && (forall i | i in owner :: 0 < i < |vd|)
      && (forall b | 0 <= b < HASH_COUNT :: BucketOk(ht[b], vd, vb, owner, known, b, chains[b]))
    }

    constructor (flushLimit: nat)
      ensures Valid() && known == map[] && madeIn == map[] && vbFlushLimit == flushLimit && vb == []
    {
      ht := seq(HASH_COUNT, i => 0);
      vd := [Desc(0, 0, 0, 0)];
      vb := [];
      vbFlushLimit := flushLimit;
      chains := seq(HASH_COUNT, i => []);
      owner, known, madeIn := map[], map[], map[];
    }

    method Flush()
      requires Valid()
      modifies `ht, `vd, `vb, `chains, `owner, `known
      ensures Valid() && known == map[] && vb == [] && |vd| == 1
    {
      ht := seq(|ht|, i => 0);
      vd := vd[..1];
      vb := [];
      chains := seq(HASH_COUNT, i => []);
      owner, known := map[], map[];
    }

    /** The comparison of a request with a cached vtable: its size word first, then all words. */
    predicate Same(i: nat, vt: seq<int>)
      requires Cached(vd, vb, i) && WfVtable(vt)
      reads `vd, `vb
      ensures Same(i, vt) <==> WordsOf(vd, vb, i) == vt
    {
      var start := vd[i].vbStart;
      assert vb[start] == WordsOf(vd, vb, i)[0];
      vb[start] == vt[0] && vb[start..start + |vt|] == vt
    }

    /** Looks the vtable up in its bucket. `hit` is its descriptor in this buffer and `prev` the one
        before it; otherwise `copy` is a descriptor of another buffer with the same words. */
    method Search(b: nat, vt: seq<int>, nestId: nat) returns (hit: nat, prev: nat, copy: nat, ghost k: nat)
      requires Valid() && b < HASH_COUNT && WfVtable(vt)
      ensures hit != 0 ==>
                && k < |chains[b]| && chains[b][k] == hit && KeyOf(vd, vb, b, hit) == Key(b, nestId, vt)
                && prev == (if k == 0 then 0 else chains[b][k - 1])
      ensures hit == 0 ==> Key(b, nestId, vt) !in known
      ensures hit == 0 && copy != 0 ==> Cached(vd, vb, copy) && WordsOf(vd, vb, copy) == vt
      ensures hit == 0 ==> (copy != 0 <==> exists n :: Key(b, n, vt) in known)
    {
      hide WfVtable, WordsOf, Agrees;
      ghost var chain := chains[b];
      assert BucketOk(ht[b], vd, vb, owner, known, b, chain);
      prev, copy, k := 0, 0, 0;
      hit := ht[b];
      while hit != 0
        invariant k <= |chain| && hit == After(chain, k)
        invariant prev == (if k == 0 then 0 else chain[k - 1])
        invariant forall j | 0 <= j < k :: KeyOf(vd, vb, b, chain[j]) != Key(b, nestId, vt)
        invariant copy == 0 ==> forall j | 0 <= j < k :: KeyOf(vd, vb, b, chain[j]).words != vt
        invariant copy != 0 ==> exists j :: 0 <= j < k && chain[j] == copy && KeyOf(vd, vb, b, chain[j]).words == vt
        decreases |chain| - k
      {
        assert Cached(vd, vb, chain[k]) && LinkOk(vd, chain, k);
        if Same(hit, vt) {
          if vd[hit].nestId == nestId { return; }
          copy := hit;
        }
        prev, hit, k := hit, vd[hit].next, k + 1;
      }
      Unknown(vd, vb, known, b, chain, vt, nestId);
      if copy != 0 {
        ghost var j :| 0 <= j < k && chain[j] == copy && KeyOf(vd, vb, b, chain[j]).words == vt;
        assert Cached(vd, vb, chain[j]) && KeyOf(vd, vb, b, chain[j]) == Key(b, vd[copy].nestId, vt);
        Chained(vd, vb, known, b, chain, j);
      }
    }

    /** The chain of a bucket begins with the vtable asked for last. */
    ghost predicate First(b: nat, ref: int) reads this {
      b < |ht| && 0 < ht[b] < |vd| && vd[ht[b]].vtRef == ref
    }

    /** Makes descriptor `hit`, found behind `prev`, the head of its bucket. */
    method MoveToFront(b: nat, hit: nat, prev: nat, ghost k: nat)
      requires Valid() && b < HASH_COUNT && k < |chains[b]| && chains[b][k] == hit
      requires prev == (if k == 0 then 0 else chains[b][k - 1])
      modifies `ht, `vd, `chains
      ensures Valid() && ht[b] == hit && chains == old(chains)[b := Moved(old(chains[b]), k)]
      ensures hit < |old(vd)| && First(b, old(vd[hit].vtRef))
    {
      hide BucketOk;
      HeadOfChain(ht[b], vd, vb, owner, known, b, chains[b], k);
      if prev != 0 {
        ghost var vd0, ht0, chain := vd, ht, chains[b];
        MovedBucket(ht[b], vd, vb, owner, known, b, chain, k);
        vd := vd[prev := vd[prev].(next := vd[hit].next)];
        vd := vd[hit := vd[hit].(next := ht[b])];
        ht := ht[b := hit];
        chains := chains[b := Moved(chain, k)];
        forall b' | 0 <= b' < HASH_COUNT && b' != b
          ensures BucketOk(ht[b'], vd, vb, owner, known, b', chains[b'])
        {
          Disjoint(ht0[b], vd0, vb, owner, known, b, chain, ht0[b'], b', chains[b']);
          OtherBucket(ht0[b'], vd0, vb, owner, known, vd, vb, owner, known, b', chains[b']);
        }
      }
    }

    /** Enters a new emission, sharing the cached words of `copy` when there is one. When the words
        would outgrow the limit the whole cache is flushed instead. */
    method Enter(b: nat, vt: seq<int>, nestId: nat, ref: int, copy: nat)
      requires Valid() && b < HASH_COUNT && WfVtable(vt) && Key(b, nestId, vt) !in known
      requires copy != 0 ==> Cached(vd, vb, copy) && WordsOf(vd, vb, copy) == vt
      modifies this
      ensures Valid() && madeIn == old(madeIn)[ref := nestId] && vbFlushLimit == old(vbFlushLimit)
      ensures known == (if copy == 0 && vbFlushLimit != 0 && vbFlushLimit < 2 * old(|vb|) + 2 * |vt| then map[]
                        else old(known)[Key(b, nestId, vt) := ref])
      ensures if known == map[] then vb == [] else vb == (if copy == 0 then old(vb) + vt else old(vb)) && First(b, ref)
    {
      hide BucketOk, WfVtable, Cached, WordsOf;
      ghost var vd0, vb0, owner0, known0 := vd, vb, owner, known;
      madeIn := madeIn[ref := nestId];
      if copy == 0 && vbFlushLimit != 0 && vbFlushLimit < 2 * |vb| + 2 * |vt| {
        Flush();
        return;
      }
      if copy != 0 { CachedWords(vd, vb, copy); }
      var start := if copy != 0 then vd[copy].vbStart else |vb|;
      if copy == 0 { vb := vb + vt; }
      var next := |vd|;
      var head := ht[b];
      vd := vd + [Desc(ref, nestId, start, head)];
      ht := ht[b := next];
      owner := owner[next := b];
      known := known[Key(b, nestId, vt) := ref];
      assert Key(b, nestId, vt) in known;
      AddedBucket(head, vd0, vb0, owner0, known0, b, chains[b], vd[next], vb, vt);
      forall b' | 0 <= b' < HASH_COUNT && b' != b
        ensures BucketOk(ht[b'], vd, vb, owner, known, b', chains[b'])
      {
        SameOthers(ht[b'], vd0, vb0, owner0, known0, b', chains[b'], vd[next], vb);
        OtherBucket(ht[b'], vd0, vb0, owner0, known0, vd, vb, owner, known, b', chains[b']);
      }
      chains := chains[b := [next] + chains[b]];
    }

    /** Returns 0, or the reference of a vtable with these words in this buffer: the one emitted
        before when it is known, a new emission otherwise. */
    method CreateCached(em: EmitState, vt: seq<int>, hash: nat, nestId: nat, clustered: bool) returns (ref: int)
      requires Valid() && em.Valid() && Emitted(known, madeIn, em.vts) && WfVtable(vt) && hash < TWO_32
      modifies this, em`emitStart, em`emitEnd, em`emitted, em`calls, em`vts
      ensures ref != 0 ==> Valid() && em.Valid() && Emitted(known, madeIn, em.vts)
      ensures ref != 0 ==> ref - 1 in em.vts && em.vts[ref - 1] == vt && ref in madeIn && madeIn[ref] == nestId
      ensures var key := Key(Bucket(hash), nestId, vt);
              if key in old(known) then
                ref == old(known)[key] && known == old(known) && em.vts == old(em.vts) && em.Space() == old(em.Space())
              else ref != 0 ==>
                && em.vts == old(em.vts)[ref - 1 := vt] && ref - 1 !in old(em.vts)
                && em.Space() == (if clustered then Layout.EmitBack(old(em.Space()), Layout.HalfBytes(vt))
                                  else Layout.EmitFront(old(em.Space()), Layout.HalfBytes(vt)))
                && known == (if (forall n :: Key(Bucket(hash), n, vt) !in old(known)) &&
                                old(vbFlushLimit) != 0 && old(vbFlushLimit) < 2 * |old(vb)| + 2 * |vt|
                             then map[] else old(known)[key := ref])
      ensures ref != 0 && known != map[] ==> First(Bucket(hash), ref)
      ensures ref != 0 ==>
                vb == if known == map[] then [] else
                      if exists n :: Key(Bucket(hash), n, vt) in old(known) then old(vb) else old(vb) + vt
      ensures vbFlushLimit == old(vbFlushLimit)
      ensures Cost(old(|em.emitted|), |em.emitted|, 2 * |vt|, ref == 0)
    {
      hide BucketOk, WfVtable, Emitted, KeyOf;
      var b := Bucket(hash);
      var hit, prev, copy, k := Search(b, vt, nestId);
      ghost var key := Key(b, nestId, vt);
      if hit != 0 {
        HitKnown(ht[b], vd, vb, owner, known, b, chains[b], k);
        ref := vd[hit].vtRef;
        EmittedKey(known, madeIn, em.vts, key);
        MoveToFront(b, hit, prev, k);
        return;
      }
      ghost var vts := em.vts;
      ref := em.CreateVtable(vt, clustered);
      if ref == 0 { return; }
      EmittedNow(known, madeIn, vts, key, ref);
      Enter(b, vt, nestId, ref, copy);
    }
  }

  lemma HeadOfChain(head: nat, vd: seq<Desc>, vb: seq<int>, owner: map<nat, nat>, known: Known, b: nat,
      chain: seq<nat>, k: nat)
    requires BucketOk(head, vd, vb, owner, known, b, chain) && k < |chain|
    ensures head == chain[0] && (k > 0 ==> chain[k - 1] > 0) && 0 < chain[k] < |vd|
    ensures k == 0 ==> Moved(chain, k) == chain
  {
    hide Agrees;
  }

  lemma Unknown(vd: seq<Desc>, vb: seq<int>, known: Known, b: nat, chain: seq<nat>, vt: seq<int>, nestId: nat)
    requires Agrees(vd, vb, known, b, chain)
    ensures (forall j | 0 <= j < |chain| :: KeyOf(vd, vb, b, chain[j]) != Key(b, nestId, vt)) ==>
        Key(b, nestId, vt) !in known
    ensures (forall j | 0 <= j < |chain| :: KeyOf(vd, vb, b, chain[j]).words != vt) ==>
        forall n :: Key(b, n, vt) !in known
  {}

  lemma Chained(vd: seq<Desc>, vb: seq<int>, known: Known, b: nat, chain: seq<nat>, j: nat)
    requires Agrees(vd, vb, known, b, chain) && j < |chain|
    ensures KeyOf(vd, vb, b, chain[j]) in known && chain[j] < |vd|
    ensures known[KeyOf(vd, vb, b, chain[j])] == vd[chain[j]].vtRef
  {}

  /** Descriptors of different buckets are different. */
  lemma Disjoint(head: nat, vd: seq<Desc>, vb: seq<int>, owner: map<nat, nat>, known: Known, b: nat, chain: seq<nat>,
                 head': nat, b': nat, chain': seq<nat>)
    requires BucketOk(head, vd, vb, owner, known, b, chain) && BucketOk(head', vd, vb, owner, known, b', chain')
    requires b != b'
    ensures forall j, k | 0 <= j < |chain| && 0 <= k < |chain'| :: chain[j] != chain'[k]
    ensures forall k | 0 <= k < |chain| :: 0 < chain[k] < |vd|
    ensures forall k | 0 <= k < |chain'| :: 0 < chain'[k] < |vd|
  {}

  function Relinked(vd: seq<Desc>, head: nat, prev: nat, hit: nat): seq<Desc>
    requires prev < |vd| && hit < |vd|
  {
    var vd1 := vd[prev := vd[prev].(next := vd[hit].next)];
    vd1[hit := vd1[hit].(next := head)]
  }

  /** Where element i of a chain with element k moved to the front came from. */
  function Origin(i: nat, k: nat): nat { if i == 0 then k else if i <= k then i - 1 else i }

  function Moved(chain: seq<nat>, k: nat): (r: seq<nat>)
    requires k < |chain|
    ensures |r| == |chain|
    ensures forall i | 0 <= i < |r| :: r[i] == chain[Origin(i, k)]
  {
    [chain[k]] + chain[..k] + chain[k + 1..]
  }

  lemma MovedKeys(head: nat, vd: seq<Desc>, vb: seq<int>, b: nat, chain: seq<nat>, k: nat)
    requires 0 < k < |chain| && chain[k] < |vd| && chain[k - 1] < |vd|
    requires forall i | 0 <= i < |chain| :: Cached(vd, vb, chain[i])
    ensures forall i | 0 <= i < |chain| ::
              Cached(Relinked(vd, head, chain[k - 1], chain[k]), vb, chain[i]) &&
              KeyOf(Relinked(vd, head, chain[k - 1], chain[k]), vb, b, chain[i]) == KeyOf(vd, vb, b, chain[i])
  {
    hide Cached, WordsOf, KeyOf;
    var vd2 := Relinked(vd, head, chain[k - 1], chain[k]);
    forall i | 0 <= i < |chain|
      ensures Cached(vd2, vb, chain[i]) && KeyOf(vd2, vb, b, chain[i]) == KeyOf(vd, vb, b, chain[i])
    {
      CachedBound(vd, vb, chain[i]);
      SameKey(vd, vb, vd2, vb, b, chain[i]);
    }
  }

  lemma MovedChain(head: nat, vd: seq<Desc>, vb: seq<int>, owner: map<nat, nat>, b: nat, chain: seq<nat>, k: nat)
    requires ChainOk(head, vd, vb, owner, b, chain) && 0 < k < |chain|
    requires chain[k] < |vd| && chain[k - 1] < |vd|
    ensures ChainOk(chain[k], Relinked(vd, head, chain[k - 1], chain[k]), vb, owner, b, Moved(chain, k))
    ensures forall i | 0 <= i < |chain| ::
              KeyOf(Relinked(vd, head, chain[k - 1], chain[k]), vb, b, chain[i]) == KeyOf(vd, vb, b, chain[i])
  {
    hide Cached, WordsOf, KeyOf;
    var vd2, moved := Relinked(vd, head, chain[k - 1], chain[k]), Moved(chain, k);
    MovedKeys(head, vd, vb, b, chain, k);
    forall i | 0 <= i < |chain| ensures chain[i] < |vd| { CachedBound(vd, vb, chain[i]); }
    forall i | 0 <= i < |moved| ensures LinkOk(vd2, moved, i) { MovedNext(head, vd, chain, k, i); }
    forall i | 0 <= i < |moved| ensures Cached(vd2, vb, moved[i]) {}
    forall i, j | 0 <= i < j < |moved| ensures moved[i] != moved[j] {
      var x, y := Origin(i, k), Origin(j, k);
      assert chain[if x < y then x else y] != chain[if x < y then y else x];
    }
  }

  lemma MovedNext(head: nat, vd: seq<Desc>, chain: seq<nat>, k: nat, i: nat)
    requires 0 < k < |chain| && i < |chain| && head == chain[0]
    requires forall j | 0 <= j < |chain| :: LinkOk(vd, chain, j)
    requires forall j, m | 0 <= j < m < |chain| :: chain[j] != chain[m]
    requires chain[k] < |vd| && chain[k - 1] < |vd|
    ensures LinkOk(Relinked(vd, head, chain[k - 1], chain[k]), Moved(chain, k), i)
  {
    var moved, o := Moved(chain, k), Origin(i, k);
    assert moved[i] == chain[o] && LinkOk(vd, chain, o) && LinkOk(vd, chain, k);
    if i + 1 < |moved| { assert moved[i + 1] == chain[Origin(i + 1, k)]; }
    if o < k - 1 { assert chain[o] != chain[k - 1]; }
    if o < k { assert chain[o] != chain[k]; }
    if k < o { assert chain[k] != chain[o] && chain[k - 1] != chain[o]; }
  }

  lemma MovedAgrees(vd: seq<Desc>, vd2: seq<Desc>, vb: seq<int>, known: Known, b: nat, chain: seq<nat>, k: nat)
    requires Agrees(vd, vb, known, b, chain) && k < |chain| && |vd2| == |vd|
    requires forall i | 0 <= i < |chain| :: KeyOf(vd2, vb, b, chain[i]) == KeyOf(vd, vb, b, chain[i])
    requires forall i | 0 <= i < |vd| :: vd2[i].vtRef == vd[i].vtRef
    ensures Agrees(vd2, vb, known, b, Moved(chain, k))
  {
    hide Cached, WordsOf, KeyOf;
    var moved := Moved(chain, k);
    forall key | key in known && key.bucket == b
      ensures exists i :: 0 <= i < |moved| && KeyOf(vd2, vb, b, moved[i]) == key
    {
      var i :| 0 <= i < |chain| && KeyOf(vd, vb, b, chain[i]) == key;
      assert moved[if i == k then 0 else if i < k then i + 1 else i] == chain[i];
    }
  }

  /** Unlinking element k and linking it in front. */
  lemma MovedBucket(head: nat, vd: seq<Desc>, vb: seq<int>, owner: map<nat, nat>, known: Known, b: nat,
      chain: seq<nat>, k: nat)
    requires BucketOk(head, vd, vb, owner, known, b, chain) && 0 < k < |chain|
    ensures chain[k] < |vd| && chain[k - 1] < |vd|
    ensures BucketOk(chain[k], Relinked(vd, head, chain[k - 1], chain[k]), vb, owner, known, b, Moved(chain, k))
  {
    hide Cached, WordsOf, KeyOf, Agrees;
    CachedBound(vd, vb, chain[k]);
    CachedBound(vd, vb, chain[k - 1]);
    MovedChain(head, vd, vb, owner, b, chain, k);
    MovedAgrees(vd, Relinked(vd, head, chain[k - 1], chain[k]), vb, known, b, chain, k);
  }

  lemma CachedWords(vd: seq<Desc>, vb: seq<int>, i: nat)
    requires Cached(vd, vb, i)
    ensures i < |vd| && vd[i].vbStart + |WordsOf(vd, vb, i)| <= |vb|
    ensures vb[vd[i].vbStart..vd[i].vbStart + |WordsOf(vd, vb, i)|] == WordsOf(vd, vb, i)
  {}

  lemma CachedBound(vd: seq<Desc>, vb: seq<int>, i: nat)
    requires Cached(vd, vb, i)
    ensures 0 < i < |vd|
  {}

  lemma HitKnown(head: nat, vd: seq<Desc>, vb: seq<int>, owner: map<nat, nat>, known: Known, b: nat, chain: seq<nat>,
      k: nat)
    requires BucketOk(head, vd, vb, owner, known, b, chain) && k < |chain|
    ensures chain[k] < |vd| && KeyOf(vd, vb, b, chain[k]) in known
    ensures known[KeyOf(vd, vb, b, chain[k])] == vd[chain[k]].vtRef
  {}

  lemma SameOthers(head: nat, vd: seq<Desc>, vb: seq<int>, owner: map<nat, nat>, known: Known, b: nat, chain: seq<nat>,
                   d: Desc, vb': seq<int>)
    requires BucketOk(head, vd, vb, owner, known, b, chain) && vb <= vb'
    ensures SameDescs(vd, vb, vd + [d], vb', chain)
  {
    hide WordsOf, KeyOf, Agrees;
  }

  /** A new descriptor at the head of its bucket, with its words found or appended. */
  lemma AddedBucket(head: nat, vd: seq<Desc>, vb: seq<int>, owner: map<nat, nat>, known: Known, b: nat, chain: seq<nat>,
                    d: Desc, vb': seq<int>, vt: seq<int>)
    requires BucketOk(head, vd, vb, owner, known, b, chain) && vb <= vb' && d.next == head && |vd| >= 1
    requires Key(b, d.nestId, vt) !in known && (forall i | i in owner :: 0 < i < |vd|)
    requires WfVtable(vt) && d.vbStart + |vt| <= |vb'| && vb'[d.vbStart..d.vbStart + |vt|] == vt
    ensures BucketOk(|vd|, vd + [d], vb', owner[|vd| := b], known[Key(b, d.nestId, vt) := d.vtRef], b, [|vd|] + chain)
  {
    var vd', chain', known' := vd + [d], [|vd|] + chain, known[Key(b, d.nestId, vt) := d.vtRef];
    NewKey(vd, d, vb', vt, b);
    AddedChain(head, vd, vb, owner, b, chain, d, vb');
    AddedAgrees(vd, vb, known, b, chain, d, vb', vt);
  }

  lemma NewKey(vd: seq<Desc>, d: Desc, vb': seq<int>, vt: seq<int>, b: nat)
    requires |vd| >= 1 && WfVtable(vt) && d.vbStart + |vt| <= |vb'| && vb'[d.vbStart..d.vbStart + |vt|] == vt
    ensures Cached(vd + [d], vb', |vd|) && KeyOf(vd + [d], vb', b, |vd|) == Key(b, d.nestId, vt)
  {
    assert vb'[d.vbStart] == vt[0];
  }

  lemma AddedChain(head: nat, vd: seq<Desc>, vb: seq<int>, owner: map<nat, nat>, b: nat, chain: seq<nat>, d: Desc,
      vb': seq<int>)
    requires ChainOk(head, vd, vb, owner, b, chain) && vb <= vb' && d.next == head
    requires Cached(vd + [d], vb', |vd|) && (forall i | i in owner :: 0 < i < |vd|)
    ensures ChainOk(|vd|, vd + [d], vb', owner[|vd| := b], b, [|vd|] + chain)
    ensures forall k | 0 <= k < |chain| ::
        chain[k] < |vd| && KeyOf(vd + [d], vb', b, chain[k]) == KeyOf(vd, vb, b, chain[k])
  {
    hide Cached, WordsOf, KeyOf;
    var vd', chain' := vd + [d], [|vd|] + chain;
    forall k | 0 <= k < |chain|
      ensures chain[k] < |vd| && Cached(vd', vb', chain[k])
      ensures KeyOf(vd', vb', b, chain[k]) == KeyOf(vd, vb, b, chain[k])
    {
      CachedBound(vd, vb, chain[k]);
      SameKey(vd, vb, vd', vb', b, chain[k]);
    }
    forall k | 0 <= k < |chain'| ensures Cached(vd', vb', chain'[k]) && LinkOk(vd', chain', k) {
      if k > 0 {
        assert chain'[k] == chain[k - 1] && LinkOk(vd, chain, k - 1);
        assert After(chain', k + 1) == After(chain, k);
      }
    }
  }

  lemma AddedAgrees(vd: seq<Desc>, vb: seq<int>, known: Known, b: nat, chain: seq<nat>, d: Desc, vb': seq<int>,
      vt: seq<int>)
    requires Agrees(vd, vb, known, b, chain) && Key(b, d.nestId, vt) !in known
    requires KeyOf(vd + [d], vb', b, |vd|) == Key(b, d.nestId, vt)
    requires forall k | 0 <= k < |chain| ::
        chain[k] < |vd| && KeyOf(vd + [d], vb', b, chain[k]) == KeyOf(vd, vb, b, chain[k])
    ensures Agrees(vd + [d], vb', known[Key(b, d.nestId, vt) := d.vtRef], b, [|vd|] + chain)
  {
    hide Cached, WordsOf, KeyOf;
    var vd', chain', known' := vd + [d], [|vd|] + chain, known[Key(b, d.nestId, vt) := d.vtRef];
    assert forall k | 0 < k < |chain'| :: chain'[k] == chain[k - 1];
    forall key | key in known' && key.bucket == b
      ensures exists k :: 0 <= k < |chain'| && KeyOf(vd', vb', b, chain'[k]) == key
    {
      if key == Key(b, d.nestId, vt) {
        assert chain'[0] == |vd|;
      } else {
        var k :| 0 <= k < |chain| && KeyOf(vd, vb, b, chain[k]) == key;
        assert chain'[k + 1] == chain[k];
      }
    }
  }
}
