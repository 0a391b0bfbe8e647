/** How deep tables nest in what the verifier accepts: within the limit in a schema without vectors of
    tables or unions; without any bound in one that has them. */
module Nesting {
  import opened Bytes
  import opened Schema
  import opened Verifier
  import opened Reader
  import opened WellFormed
  import Soundness

  /** At most n tables lie inside one another. */
  predicate Within(v: Value, n: nat)
    decreases v
  {
    match v
    case Table(fields) => n > 0 && forall i | 0 <= i < |fields| :: Within(fields[i], n - 1)
    case Tables(rows) => forall i | 0 <= i < |rows| :: Within(rows[i], n)
    case Union(_, member) => Within(member, n)
    case Unions(_, elems) => forall i | 0 <= i < |elems| :: Within(elems[i], n)
    case _ => true
  }

  // ---- bounded -----------------------------------------------------------------------------------

  predicate Single(f: Field) { !f.FUnions? && !(f.FOffset? && f.kind.KTables?) }

  /** No field is a vector of tables or of unions. */
  predicate NoVectors(sc: Schema) {
    forall t, i | 0 <= t < |sc.tables| && 0 <= i < |sc.tables[t]| :: Single(sc.tables[t][i])
  }

  lemma FollowsTarget(c: Ctx, p: nat)
    requires |c.buf| < TWO_32 && Leads(c, p) && Follow(c, p).Got?
    ensures Follow(c, p).v == Target(c, p)
  {
    hide U32At;
  }

  lemma EntryRead(c: Ctx, t: nat, id: nat)
    requires t + 4 <= |c.buf| && HeadAt(c, t) && ReadVt(c, t, id).Got?
    ensures ReadVt(c, t, id).v == EntryOf(c, t, id)
  {
    hide U16At, U32At;
  }

  lemma {:induction false} TableWithin(c: Ctx, t: nat, tid: nat, level: nat)
    requires WfSchema(c.sc) && NoVectors(c.sc) && tid < |c.sc.tables| && t + 4 <= |c.buf| < TWO_32
    requires TableAt(c, t, tid, level) && ReadTable(c, t, tid).Got?
    ensures Within(ReadTable(c, t, tid).v, level)
    decreases |c.buf| - t, 3, 0
  {
    hide FieldAt, HeadAt;
    FieldsWithin(c, t, c.sc.tables[tid], level);
  }

  lemma {:induction false} FieldsWithin(c: Ctx, t: nat, fields: seq<Field>, level: nat)
    requires WfSchema(c.sc) && NoVectors(c.sc) && t + 4 <= |c.buf| < TWO_32 && HeadAt(c, t) && level >= 1
    requires forall i | 0 <= i < |fields| ::
               WfField(c.sc, fields[i]) && Single(fields[i]) && FieldAt(c, t, fields[i], level)
    requires ReadFields(c, t, fields).Got?
    ensures var vs := ReadFields(c, t, fields).v; forall i | 0 <= i < |vs| :: Within(vs[i], level - 1)
    decreases |c.buf| - t, 2, |fields|
  {
    hide FieldAt, HeadAt, Within, WfField, Single;
    if fields != [] {
      FieldWithin(c, t, fields[0], level);
      FieldsWithin(c, t, fields[1..], level);
    }
  }

  lemma {:induction false} FieldWithin(c: Ctx, t: nat, f: Field, level: nat)
    requires WfSchema(c.sc) && NoVectors(c.sc) && t + 4 <= |c.buf| < TWO_32 && HeadAt(c, t) && level >= 1
    requires WfField(c.sc, f) && Single(f) && FieldAt(c, t, f, level) && ReadField(c, t, f).Got?
    ensures Within(ReadField(c, t, f).v, level - 1)
    decreases |c.buf| - t, 1, 0
  {
    hide U16At, U32At, HeadAt, EntryOf, Inside, Leads, Follow, ReadVt, TableAt, ReadTable, ReadString, ReadStringsFrom,
      StringAt, StringsAt, VectorAt, ReadVector, Target, Link, MemberAt, ReadMember, KindAt, ReadTarget;
    match f
    case FScalar(_, _, _, _, _) =>
    case FOffset(id, required, kind) =>
      EntryRead(c, t, id);
      var e := EntryOf(c, t, id);
      if e != 0 {
        LinkRoom(c, t, e);
        KindWithin(c, t + e, kind, level);
      }
    case FUnion(id, required, members) =>
      EntryRead(c, t, id - 1);
      EntryRead(c, t, id);
      var e, tag := EntryOf(c, t, id), EntryOf(c, t, id - 1);
      if tag != 0 && e != 0 && c.buf[t + tag] != 0 {
        LinkRoom(c, t, e);
        MemberWithin(c, t + e, c.buf[t + tag], members, level);
      }
  }

  lemma {:induction false} KindWithin(c: Ctx, p: nat, kind: Kind, level: nat)
    requires WfSchema(c.sc) && NoVectors(c.sc) && WfKind(c.sc, kind) && !kind.KTables? && p + 4 <= |c.buf| < TWO_32
    requires level >= 1 && KindAt(c, p, kind, level) && Follow(c, p).Got? && ReadTarget(c, Follow(c, p).v, kind).Got?
    ensures Within(ReadTarget(c, Follow(c, p).v, kind).v, level - 1)
    decreases |c.buf| - p, 3, 0
  {
    hide U32At, Leads, Follow, TableAt, ReadTable, ReadString, ReadStringsFrom, StringAt, StringsAt, VectorAt,
      Target;
    FollowsTarget(c, p);
    LeadsMeans(c, p);
    var k := Target(c, p);
    match kind
    case KTable(tid) =>
      TableWithin(c, k, tid, level - 1);
      assert ReadTarget(c, k, kind) == ReadTable(c, k, tid);
    case KVec(elem, align) => assert ReadTarget(c, k, kind) == ReadVector(c, k, elem, align);
    case KStr => assert ReadTarget(c, k, kind).v.Str?;
    case KStrs => assert ReadTarget(c, k, kind).v.Strs?;
  }

  lemma {:induction false} MemberWithin(c: Ctx, p: nat, tag: u8, members: map<u8, Kind>, level: nat)
    requires WfSchema(c.sc) && NoVectors(c.sc) && WfMembers(c.sc, members) && p + 4 <= |c.buf| < TWO_32
    requires level >= 1 && MemberAt(c, p, tag, members, level) && ReadMember(c, p, tag, members).Got?
    ensures Within(ReadMember(c, p, tag, members).v, level - 1)
    decreases |c.buf| - p, 4, 0
  {
    hide U32At, Follow, ReadTable, ReadString, KindAt;
    if tag in members { KindWithin(c, p, members[tag], level); }
  }

  /** In a schema without vectors of tables or unions, what is accepted and read nests fewer tables than the
      verifier has levels. */
  lemma AcceptedNests(c: Ctx, tid: nat)
    requires WfSchema(c.sc) && NoVectors(c.sc) && tid < |c.sc.tables|
    requires VerifyTableAsRoot(c, tid).Ok? && ReadRoot(c, tid).Got?
    ensures Within(ReadRoot(c, tid).v, MAX_LEVELS - 1)
  {
    hide TableAt, ReadTable, VerifyTableAsRoot, Leads, Follow;
    AcceptsExactly(c, tid);
    LeadsMeans(c, 0);
    FollowsTarget(c, 0);
    TableWithin(c, Target(c, 0), tid, MAX_LEVELS - 1);
  }

  /** The tests themselves: a table is turned away for its level on level one alone, not on any below; a vector
      of tables on every level from zero down. */
  lemma LevelTests(c: Ctx, base: nat, offset: nat, ttl: int, tid: nat)
    requires WfSchema(c.sc) && tid < |c.sc.tables| && |c.buf| < TWO_32 && base <= |c.buf|
    ensures VerifyTableHeader(c, base, offset, ttl) == BadTd(MaxNestingLevelReached) <==> ttl == 1
    ensures ttl <= 0 ==> VerifyTableVector(c, base, offset, ttl, tid) == Bad(MaxNestingLevelReached)
  {}

  // ---- unbounded ---------------------------------------------------------------------------------

  /** A table that holds another, or a vector of others. */
  const CHAIN := Schema([[FOffset(0, false, KTable(0)), FOffset(1, false, KTables(0))]])

  /** A vtable of two entries and its table, of one offset. */
  const PLAIN: seq<u8> := [8, 0, 8, 0, 4, 0, 0, 0, 8, 0, 0, 0, 12, 0, 0, 0]
  const LAST: seq<u8> := [8, 0, 8, 0, 0, 0, 0, 0, 8, 0, 0, 0, 0, 0, 0, 0]
  /** The same with a vector of one table behind it. */
  const VECTOR: seq<u8> := [8, 0, 8, 0, 0, 0, 4, 0, 8, 0, 0, 0, 4, 0, 0, 0, 1, 0, 0, 0, 12, 0, 0, 0]

  /** n tables, each holding the next. */
  function Plains(n: nat): (b: seq<u8>)
    ensures |b| == 16 * n
  {
    if n == 0 then [] else Plains(n - 1) + PLAIN
  }

  lemma {:induction false} PlainAt(n: nat, k: nat)
    requires k < n
    ensures Plains(n)[16 * k..16 * k + 16] == PLAIN
    decreases n
  {
    if k < n - 1 { PlainAt(n - 1, k); assert Plains(n)[16 * k..16 * k + 16] == Plains(n - 1)[16 * k..16 * k + 16]; }
  }

  /** As many tables as use up the levels, a vector, and n more. */
  function Deep(n: nat): (b: seq<u8>)
    ensures |b| == 16 * n + 1612
  {
    [12, 0, 0, 0] + Plains(MAX_LEVELS - 2) + VECTOR + Plains(n) + LAST
  }

  /** The bytes of a block, its table at t. */
  ghost predicate Block(c: Ctx, t: nat, block: seq<u8>) {
    t >= 8 && t % 4 == 0 && |block| >= 16 && t - 8 + |block| <= |c.buf| && c.buf[t - 8..t - 8 + |block|] == block
  }

  lemma Half(c: Ctx, t: nat, block: seq<u8>, k: nat)
    requires Block(c, t, block) && k + 2 <= |block|
    ensures U16At(c.buf, t - 8 + k) == U16At(block, k)
  {
    hide U16At;
    assert c.buf[t - 8 + k..t - 8 + k + 2] == c.buf[t - 8..t - 8 + |block|][k..k + 2];
    U16OfSlice(c.buf, t - 8 + k, block, k);
  }

  lemma Word(c: Ctx, t: nat, block: seq<u8>, k: nat)
    requires Block(c, t, block) && k + 4 <= |block|
    ensures U32At(c.buf, t - 8 + k) == U32At(block, k)
  {
    hide U32At;
    assert c.buf[t - 8 + k..t - 8 + k + 4] == c.buf[t - 8..t - 8 + |block|][k..k + 4];
    U32OfSlice(c.buf, t - 8 + k, block, k);
  }

  /** A vtable of two entries in front of a table of eight bytes. */
  lemma BlockReads(c: Ctx, t: nat, block: seq<u8>)
    requires Block(c, t, block) && |c.buf| < TWO_31
    requires U16At(block, 0) == 8 && U16At(block, 2) == 8 && U32At(block, 8) == 8
    ensures HeadAt(c, t) && EntryOf(c, t, 0) == U16At(block, 4) && EntryOf(c, t, 1) == U16At(block, 6)
    ensures forall e: nat, n: nat :: Inside(c, t, e, n) <==> e + n <= 8
  {
    hide U16At, U32At;
    Half(c, t, block, 0);
    Half(c, t, block, 2);
    Half(c, t, block, 4);
    Half(c, t, block, 6);
    Word(c, t, block, 8);
    assert Wrap32(t - 8) == t - 8;
    assert U16At(c.buf, t - 8 + 2 * (0 + 2)) == U16At(block, 4);
    assert U16At(c.buf, t - 8 + 2 * (1 + 2)) == U16At(block, 6);
  }

  lemma ChainField(c: Ctx, i: nat)
    requires c.sc == CHAIN && i < 2
    ensures WfSchema(CHAIN) && c.sc.tables[0][i] == FOffset(i, false, if i == 0 then KTable(0) else KTables(0))
    ensures |c.sc.tables| == 1 && |c.sc.tables[0]| == 2
  {}

  lemma FieldsOfChain(c: Ctx, t: nat, level: int)
    requires c.sc == CHAIN && t + 4 <= |c.buf| && HeadAt(c, t) && level != 0 && WfSchema(c.sc)
    requires WfField(c.sc, FOffset(0, false, KTable(0))) && FieldAt(c, t, FOffset(0, false, KTable(0)), level)
    requires WfField(c.sc, FOffset(1, false, KTables(0))) && FieldAt(c, t, FOffset(1, false, KTables(0)), level)
    ensures |c.sc.tables| == 1 && TableAt(c, t, 0, level)
  {
    hide HeadAt, FieldAt;
    ChainField(c, 0);
    ChainField(c, 1);
  }

  lemma LastTable(c: Ctx, t: nat, level: int)
    requires c.sc == CHAIN && |c.buf| < TWO_31 && Block(c, t, LAST) && level != 0
    ensures WfSchema(c.sc) && |c.sc.tables| == 1 && TableAt(c, t, 0, level)
  {
    hide HeadAt, EntryOf, Inside, TableAt, KindAt;
    ChainField(c, 0);
    BlockReads(c, t, LAST);
    FieldsOfChain(c, t, level);
  }

  lemma OffsetOf(c: Ctx, p: nat, k: nat)
    requires p + 4 <= |c.buf| && U32At(c.buf, p) == k - p && p < k && k + 4 <= |c.buf| && k % 4 == 0
    ensures Target(c, p) == k && Leads(c, p)
  {}

  lemma PlainTable(c: Ctx, t: nat, level: int)
    requires c.sc == CHAIN && |c.buf| < TWO_31 && Block(c, t, PLAIN) && level != 0 && t + 20 <= |c.buf|
    ensures WfSchema(c.sc) && |c.sc.tables| == 1
    ensures HeadAt(c, t) && EntryOf(c, t, 0) == 4 && Target(c, t + 4) == t + 16 && Leads(c, t + 4)
    ensures TableAt(c, t + 16, 0, level - 1) ==> TableAt(c, t, 0, level)
  {
    hide HeadAt, EntryOf, Inside, TableAt, U32At, U16At, Leads, Target;
    ChainField(c, 0);
    assert U16At(PLAIN, 0) == 8 && U16At(PLAIN, 2) == 8 && U32At(PLAIN, 8) == 8 by { PlainWords(); }
    assert U16At(PLAIN, 4) == 4 && U16At(PLAIN, 6) == 0 && U32At(PLAIN, 12) == 12 by { PlainWords(); }
    BlockReads(c, t, PLAIN);
    Word(c, t, PLAIN, 12);
    OffsetOf(c, t + 4, t + 16);
    if TableAt(c, t + 16, 0, level - 1) {
      assert KindAt(c, t + 4, KTable(0), level);
      FieldsOfChain(c, t, level);
    }
  }

  lemma PlainWords()
    ensures U16At(PLAIN, 0) == 8 && U16At(PLAIN, 2) == 8 && U32At(PLAIN, 8) == 8
    ensures U16At(PLAIN, 4) == 4 && U16At(PLAIN, 6) == 0 && U32At(PLAIN, 12) == 12
  {}

  lemma VectorWords()
    ensures U16At(VECTOR, 0) == 8 && U16At(VECTOR, 2) == 8 && U32At(VECTOR, 8) == 8
    ensures U16At(VECTOR, 4) == 0 && U16At(VECTOR, 6) == 4 && U32At(VECTOR, 12) == 4
    ensures U32At(VECTOR, 16) == 1 && U32At(VECTOR, 20) == 12
  {}

  lemma VectorTable(c: Ctx, t: nat, level: int)
    requires c.sc == CHAIN && |c.buf| < TWO_31 && Block(c, t, VECTOR) && level > 0 && t + 28 <= |c.buf|
    ensures WfSchema(c.sc) && |c.sc.tables| == 1
    ensures HeadAt(c, t) && EntryOf(c, t, 1) == 4 && Target(c, t + 4) == t + 8 && Leads(c, t + 4)
    ensures U32At(c.buf, t + 8) == 1 && Target(c, t + 12) == t + 24 && Leads(c, t + 12)
    ensures TableAt(c, t + 24, 0, level - 2) ==> TableAt(c, t, 0, level)
  {
    hide HeadAt, EntryOf, Inside, TableAt, U32At, U16At, Leads, Target;
    ChainField(c, 0);
    assert U16At(VECTOR, 0) == 8 && U16At(VECTOR, 2) == 8 && U32At(VECTOR, 8) == 8 by { VectorWords(); }
    assert U16At(VECTOR, 4) == 0 && U16At(VECTOR, 6) == 4 && U32At(VECTOR, 12) == 4 by { VectorWords(); }
    assert U32At(VECTOR, 16) == 1 && U32At(VECTOR, 20) == 12 by { VectorWords(); }
    BlockReads(c, t, VECTOR);
    Word(c, t, VECTOR, 12);
    Word(c, t, VECTOR, 16);
    Word(c, t, VECTOR, 20);
    OffsetOf(c, t + 4, t + 8);
    OffsetOf(c, t + 12, t + 24);
    if TableAt(c, t + 24, 0, level - 2) {
      assert TableElem(c, t + 12, 0, 0, level - 1);
      assert KindAt(c, t + 4, KTables(0), level);
      FieldsOfChain(c, t, level);
    }
  }

  /** Tables, each holding the next, are accepted at any level that does not reach zero on the way. */
  lemma {:induction false} PlainsAccepted(c: Ctx, t: nat, n: nat, level: int)
    requires c.sc == CHAIN && |c.buf| < TWO_31 && t + 16 * n + 4 <= |c.buf| && (level < 0 || level > n)
    requires forall k: nat | k < n :: Block(c, t + 16 * k, PLAIN)
    requires WfSchema(c.sc) && |c.sc.tables| == 1 && TableAt(c, t + 16 * n, 0, level - n)
    ensures TableAt(c, t, 0, level)
    decreases n
  {
    hide TableAt, Block;
    if n > 0 {
      assert Block(c, t + 16 * 0, PLAIN);
      forall k: nat | k < n - 1 ensures Block(c, t + 16 + 16 * k, PLAIN) {
        assert t + 16 + 16 * k == t + 16 * (k + 1);
      }
      PlainsAccepted(c, t + 16, n - 1, level - 1);
      PlainTable(c, t, level);
    }
  }

  /** What a chain of n tables reads as nests at least as deep as what lies behind it, and n more. */
  lemma {:induction false} PlainsNest(c: Ctx, t: nat, n: nat, m: nat)
    requires c.sc == CHAIN && |c.buf| < TWO_31 && t + 16 * n + 4 <= |c.buf|
    requires forall k: nat | k < n :: Block(c, t + 16 * k, PLAIN)
    requires WfSchema(c.sc) && |c.sc.tables| == 1 && ReadTable(c, t, 0).Got?
    ensures ReadTable(c, t + 16 * n, 0).Got?
    ensures Within(ReadTable(c, t, 0).v, n + m) ==> Within(ReadTable(c, t + 16 * n, 0).v, m)
    decreases n
  {
    hide Block, ReadTable;
    if n > 0 {
      assert Block(c, t + 16 * 0, PLAIN);
      forall k: nat | k < n - 1 ensures Block(c, t + 16 + 16 * k, PLAIN) {
        assert t + 16 + 16 * k == t + 16 * (k + 1);
      }
      PlainTable(c, t, 1);
      FirstRead(c, t);
      PlainsNest(c, t + 16, n - 1, m);
    }
  }

  /** A table that leads to another in its first field reads as one that holds it. */
  lemma FirstRead(c: Ctx, t: nat)
    requires c.sc == CHAIN && |c.buf| < TWO_32 && t + 8 <= |c.buf| && WfSchema(c.sc) && |c.sc.tables| == 1
    requires HeadAt(c, t) && EntryOf(c, t, 0) == 4 && Leads(c, t + 4) && ReadTable(c, t, 0).Got?
    ensures ReadTable(c, Target(c, t + 4), 0).Got?
    ensures forall n: nat | Within(ReadTable(c, t, 0).v, n) ::
              n > 0 && Within(ReadTable(c, Target(c, t + 4), 0).v, n - 1)
  {
    hide HeadAt, EntryOf, Leads, Target, Follow, ReadVt;
    ChainField(c, 0);
    var fields := c.sc.tables[0];
    FirstField(c, t, fields);
    EntryRead(c, t, 0);
    FollowsTarget(c, t + 4);
    var k := Target(c, t + 4);
    assert ReadField(c, t, fields[0]) == ReadOffsetField(c, t, 0, false, KTable(0)) == ReadTarget(c, k, KTable(0));
    assert ReadTarget(c, k, KTable(0)) == ReadTable(c, k, 0);
    var v := ReadTable(c, t, 0).v;
    assert v.Table? && v.fields[0] == ReadTable(c, Target(c, t + 4), 0).v;
  }

  lemma FirstField(c: Ctx, t: nat, fields: seq<Field>)
    requires WfSchema(c.sc) && fields != [] && (forall i | 0 <= i < |fields| :: WfField(c.sc, fields[i])) && t < |c.buf|
    requires ReadFields(c, t, fields).Got?
    ensures ReadField(c, t, fields[0]).Got? && ReadFields(c, t, fields).v != []
    ensures ReadFields(c, t, fields).v[0] == ReadField(c, t, fields[0]).v
  {
    hide ReadField;
  }

  lemma SecondRead(c: Ctx, t: nat)
    requires c.sc == CHAIN && |c.buf| < TWO_32 && t + 16 <= |c.buf| && WfSchema(c.sc) && |c.sc.tables| == 1
    requires HeadAt(c, t) && EntryOf(c, t, 1) == 4 && Leads(c, t + 4) && Target(c, t + 4) == t + 8
    requires U32At(c.buf, t + 8) == 1 && Leads(c, t + 12) && ReadTable(c, t, 0).Got?
    ensures ReadTable(c, Target(c, t + 12), 0).Got?
    ensures forall n: nat | Within(ReadTable(c, t, 0).v, n) ::
              n > 0 && Within(ReadTable(c, Target(c, t + 12), 0).v, n - 1)
  {
    hide HeadAt, EntryOf, Leads, Target, Follow, ReadVt, U32At;
    ChainField(c, 1);
    var fields := c.sc.tables[0];
    RestRead(c, t, fields);
    FirstField(c, t, fields[1..]);
    EntryRead(c, t, 1);
    FollowsTarget(c, t + 4);
    var k := t + 8;
    assert ReadField(c, t, fields[1]) == ReadOffsetField(c, t, 1, false, KTables(0)) == ReadTarget(c, k, KTables(0));
    assert ReadTarget(c, k, KTables(0)).Got? && ReadTablesFrom(c, k + 4, 1, 0).Got?;
    FollowsTarget(c, t + 12);
    var v, row := ReadTable(c, t, 0).v, ReadTable(c, Target(c, t + 12), 0).v;
    assert ReadTablesFrom(c, k + 4, 1, 0) == Got([row] + []) by {
      assert ReadTablesFrom(c, k + 4 + 4, 0, 0) == Got([]);
    }
    assert v.Table? && v.fields[1] == Tables([row] + []) && ([row] + [])[0] == row;
  }

  lemma RestRead(c: Ctx, t: nat, fields: seq<Field>)
    requires WfSchema(c.sc) && fields != [] && (forall i | 0 <= i < |fields| :: WfField(c.sc, fields[i])) && t < |c.buf|
    requires ReadFields(c, t, fields).Got?
    ensures ReadFields(c, t, fields[1..]).Got? && ReadFields(c, t, fields).v != []
    ensures ReadFields(c, t, fields).v[1..] == ReadFields(c, t, fields[1..]).v
  {
    hide ReadField;
  }

  lemma Parts(a: seq<u8>, b: seq<u8>, c: seq<u8>, d: seq<u8>, e: seq<u8>)
    ensures var all := a + b + c + d + e;
            && all[..|a|] == a && all[|a|..|a| + |b|] == b && all[|a| + |b|..|a| + |b| + |c|] == c
            && all[|a| + |b| + |c|..|a| + |b| + |c| + |d|] == d && all[|a| + |b| + |c| + |d|..] == e
  {}

  lemma PartOfPart(b: seq<u8>, at: nat, n: nat, k: nat)
    requires at + n <= |b| && k + 16 <= n
    ensures b[at..at + n][k..k + 16] == b[at + k..at + k + 16]
  {
    var part, block := b[at..at + n][k..k + 16], b[at + k..at + k + 16];
    assert forall i | 0 <= i < 16 :: part[i] == block[i];
  }

  lemma PlainsAt(c: Ctx, t: nat, n: nat)
    requires t >= 8 && t % 4 == 0 && t - 8 + 16 * n <= |c.buf| && c.buf[t - 8..t - 8 + 16 * n] == Plains(n)
    ensures forall k: nat | k < n :: Block(c, t + 16 * k, PLAIN)
  {
    hide Plains;
    forall k: nat | k < n ensures Block(c, t + 16 * k, PLAIN) {
      PlainAt(n, k);
      PartOfPart(c.buf, t - 8, 16 * n, 16 * k);
    }
  }

  /** Where the blocks of Deep(n) lie. */
  lemma DeepBlocks(c: Ctx, n: nat)
    requires c.buf == Deep(n)
    ensures U32At(c.buf, 0) == 12
    ensures forall k: nat | k < MAX_LEVELS - 2 :: Block(c, 12 + 16 * k, PLAIN)
    ensures Block(c, 1580, VECTOR) && Block(c, 1604 + 16 * n, LAST)
    ensures forall k: nat | k < n :: Block(c, 1604 + 16 * k, PLAIN)
  {
    hide Plains, Block;
    Parts([12, 0, 0, 0], Plains(98), VECTOR, Plains(n), LAST);
    RootOffset(c.buf);
    PlainsAt(c, 12, 98);
    BlockAt(c, 1580, VECTOR);
    PlainsAt(c, 1604, n);
    BlockAt(c, 1604 + 16 * n, LAST);
  }

  lemma BlockAt(c: Ctx, t: nat, block: seq<u8>)
    requires t >= 8 && t % 4 == 0 && |block| >= 16 && t - 8 + |block| <= |c.buf|
    requires c.buf[t - 8..t - 8 + |block|] == block
    ensures Block(c, t, block)
  {}

  lemma RootOffset(b: seq<u8>)
    requires |b| >= 4 && b[..4] == [12, 0, 0, 0]
    ensures U32At(b, 0) == 12
  {
    assert b[0] == b[..4][0] && b[1] == b[..4][1] && b[2] == b[..4][2] && b[3] == b[..4][3];
  }

  /** For every n there are bytes the verifier accepts, whose tables nest more than n deep: a vector met on the
      last level takes the level below zero, where nothing stops at zero again. */
  lemma NestsDeep(n: nat, addr: nat)
    requires n < 0x0400_0000 && addr % 4 == 0
    ensures var c := Ctx(Deep(n), addr, CHAIN);
            && WfSchema(c.sc) && |c.sc.tables| == 1
            && VerifyTableAsRoot(c, 0).Ok? && ReadRoot(c, 0).Got? && !Within(ReadRoot(c, 0).v, n)
  {
    hide U32At, Deep, Block, TableAt, ReadTable, VerifyTableAsRoot, Leads, Target, Within, HeadAt, EntryOf;
    var c := Ctx(Deep(n), addr, CHAIN);
    DeepBlocks(c, n);
    DeepAccepted(c, n);
    assert Soundness.AllReadable(c.sc, addr) by { ChainReadable(addr); }
    Soundness.AcceptedIsSafeToRead(c, 0);
    OffsetOf(c, 0, 12);
    FollowsTarget(c, 0);
    assert ReadRoot(c, 0) == ReadTable(c, 12, 0);
    PlainsNest(c, 12, 98, n);
    VectorTable(c, 1580, 1);
    SecondRead(c, 1580);
    PlainsNest(c, 1604, n, 0);
    HoldsItself(c, 1604 + 16 * n);
    if Within(ReadTable(c, 12, 0).v, n) {
      WithinMore(ReadTable(c, 12, 0).v, n, 98 + n);
      WithinMore(ReadTable(c, 1604, 0).v, n - 1, n);
    }
  }

  lemma HoldsItself(c: Ctx, t: nat)
    requires WfSchema(c.sc) && |c.sc.tables| == 1 && ReadTable(c, t, 0).Got?
    ensures !Within(ReadTable(c, t, 0).v, 0)
  {}

  lemma ChainReadable(addr: nat)
    ensures Soundness.AllReadable(CHAIN, addr)
  {}

  lemma {:induction false} WithinMore(v: Value, n: nat, m: nat)
    requires Within(v, n) && n <= m
    ensures Within(v, m)
    decreases v
  {
    match v
    case Table(fields) =>
      forall i | 0 <= i < |fields| ensures Within(fields[i], m - 1) { WithinMore(fields[i], n - 1, m - 1); }
    case Tables(rows) => forall i | 0 <= i < |rows| ensures Within(rows[i], m) { WithinMore(rows[i], n, m); }
    case Union(_, member) => WithinMore(member, n, m);
    case Unions(_, elems) => forall i | 0 <= i < |elems| ensures Within(elems[i], m) { WithinMore(elems[i], n, m); }
    case _ =>
  }

  lemma DeepAccepted(c: Ctx, n: nat)
    requires c.sc == CHAIN && c.buf == Deep(n) && n < 0x0400_0000 && c.addr % 4 == 0
    ensures WfSchema(c.sc) && |c.sc.tables| == 1 && VerifyTableAsRoot(c, 0).Ok?
  {
    hide U32At, Deep, Block, TableAt, VerifyTableAsRoot, Leads, Target;
    DeepBlocks(c, n);
    LastTable(c, 1604 + 16 * n, -1 - n);
    PlainsAccepted(c, 1604, n, -1);
    VectorTable(c, 1580, 1);
    PlainsAccepted(c, 12, 98, 99);
    OffsetOf(c, 0, 12);
    AcceptsExactly(c, 0);
  }
}
