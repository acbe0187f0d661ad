/**
 * The microbiology clean stages: lk_micro_cross_ref (the grouping trace_ids),
 * lk_micro_hadm_id, lk_meas_organism_clean, lk_specimen_clean and
 * lk_meas_ab_clean.
 *
 * A microbiology event names a specimen, a test, the organism grown and the
 * antibiotic tried. Events that share (subject, admission, time, specimen)
 * describe one specimen; those that also share test and organism describe one
 * test-organism pair. FIRST_VALUE(trace_id) over such a group ordered by
 * trace_id is the group's least trace_id; the event that carries it leads the
 * group. trace_ids are unique in src_microbiologyevents, which the lemmas
 * about the joins on trace_id demand.
 */
module Microbiology {
  import opened Sql
  import opened Source
  import opened AdmissionLink

  function TraceOf(e: MicroEvent): int
  {
    e.prov.traceId
  }

  /** COALESCE(charttime, chartdate). */
  function StartOf(e: MicroEvent): Timestamp
  {
    Coalesce(e.charttime, e.chartdate)
  }

  /** No two events share a trace_id. */
  predicate UniqueTraces(events: seq<MicroEvent>)
  {
    forall a, b :: a in events && b in events && TraceOf(a) == TraceOf(b) ==> a == b
  }

  // ---------------------------------------------------------------------------
  // lk_micro_cross_ref

  /** The specimen partition: subject_id, hadm_id, time, spec_itemid (NULLs group together). */
  predicate SameSpecimen(a: MicroEvent, b: MicroEvent)
  {
    a.subjectId == b.subjectId && a.hadmId == b.hadmId && StartOf(a) == StartOf(b) && a.specItemid == b.specItemid
  }

  /** The test-organism partition: the specimen partition, test_itemid and org_itemid. */
  predicate SameOrganism(a: MicroEvent, b: MicroEvent)
  {
    SameSpecimen(a, b) && a.testItemid == b.testItemid && a.orgItemid == b.orgItemid
  }

  function SameSpecimenAs(e: MicroEvent): MicroEvent -> bool
  {
    (x: MicroEvent) => SameSpecimen(x, e)
  }

  function SameOrganismAs(e: MicroEvent): MicroEvent -> bool
  {
    (x: MicroEvent) => SameOrganism(x, e)
  }

  /** The least of t and the trace_ids of xs. */
  function MinTrace(xs: seq<MicroEvent>, t: int): (m: int)
    ensures m <= t && forall x :: x in xs ==> m <= TraceOf(x)
  {
    if xs == [] then t
    else
      var rest := MinTrace(xs[1..], t);
      assert forall x :: x in xs ==> x == xs[0] || x in xs[1..];
      if TraceOf(xs[0]) <= rest then TraceOf(xs[0]) else rest
  }

  /** The least value is t itself or the trace_id of an element of xs. */
  lemma {:induction false} MinTraceAttained(xs: seq<MicroEvent>, t: int)
    ensures MinTrace(xs, t) == t || exists x :: x in xs && TraceOf(x) == MinTrace(xs, t)
  {
    if xs != [] {
      MinTraceAttained(xs[1..], t);
      if MinTrace(xs, t) != TraceOf(xs[0]) && MinTrace(xs, t) != t {
        var x :| x in xs[1..] && TraceOf(x) == MinTrace(xs[1..], t);
        assert x in xs;
      }
    }
  }

  /** trace_id_org: FIRST_VALUE(trace_id) over e's test-organism partition ordered by trace_id. */
  function OrgTrace(events: seq<MicroEvent>, e: MicroEvent): int
  {
    MinTrace(Filter(events, SameOrganismAs(e)), TraceOf(e))
  }

  /** trace_id_spec: FIRST_VALUE(trace_id) over e's specimen partition ordered by trace_id. */
  function SpecTrace(events: seq<MicroEvent>, e: MicroEvent): int
  {
    MinTrace(Filter(events, SameSpecimenAs(e)), TraceOf(e))
  }

  datatype CrossRef = CrossRef(
    traceIdAb: int,
    traceIdOrg: int,
    traceIdSpec: int,
    subjectId: int,
    hadmId: Option<int>,
    startDatetime: Timestamp)

  function CrossRefOf(events: seq<MicroEvent>, e: MicroEvent): CrossRef
  {
    CrossRef(TraceOf(e), OrgTrace(events, e), SpecTrace(events, e), e.subjectId, e.hadmId, StartOf(e))
  }

  /** The cross-reference rows of the events xs, the partitions taken over all of events. */
  function CrossRefs(events: seq<MicroEvent>, xs: seq<MicroEvent>): seq<CrossRef>
  {
    if xs == [] then [] else [CrossRefOf(events, xs[0])] + CrossRefs(events, xs[1..])
  }

  /** createMicroCrossReference: one row per event. */
  function MicroCrossReference(events: seq<MicroEvent>): seq<CrossRef>
  {
    CrossRefs(events, events)
  }

  lemma {:induction false} CrossRefsMembership(events: seq<MicroEvent>, xs: seq<MicroEvent>)
    ensures forall cr :: cr in CrossRefs(events, xs) <==> exists e :: e in xs && cr == CrossRefOf(events, e)
  {
    if xs != [] {
      CrossRefsMembership(events, xs[1..]);
      assert forall e :: e in xs <==> e == xs[0] || e in xs[1..];
    }
  }

  /** Every event has its cross-reference row. */
  lemma CrossRefIn(events: seq<MicroEvent>, e: MicroEvent)
    requires e in events
    ensures CrossRefOf(events, e) in MicroCrossReference(events)
  {
    CrossRefsMembership(events, events);
  }

  /** Every cross-reference row is that of an event. */
  lemma CrossRefFrom(events: seq<MicroEvent>, cr: CrossRef) returns (e: MicroEvent)
    requires cr in MicroCrossReference(events)
    ensures e in events && cr == CrossRefOf(events, e)
  {
    CrossRefsMembership(events, events);
    e :| e in events && cr == CrossRefOf(events, e);
  }

  /**
   * The grouping trace_ids of an event: trace_id_org is the least trace_id of its
   * test-organism partition and trace_id_spec that of its specimen partition, each carried
   * by an event of the partition; so trace_id_spec <= trace_id_org <= trace_id_ab.
   */
  lemma CrossRefOrder(events: seq<MicroEvent>, e: MicroEvent)
    requires e in events
    ensures SpecTrace(events, e) <= OrgTrace(events, e) <= TraceOf(e)
    ensures exists x :: x in events && SameOrganism(x, e) && TraceOf(x) == OrgTrace(events, e)
    ensures forall x :: x in events && SameOrganism(x, e) ==> OrgTrace(events, e) <= TraceOf(x)
    ensures exists x :: x in events && SameSpecimen(x, e) && TraceOf(x) == SpecTrace(events, e)
    ensures forall x :: x in events && SameSpecimen(x, e) ==> SpecTrace(events, e) <= TraceOf(x)
  {
    var org := Filter(events, SameOrganismAs(e));
    var spec := Filter(events, SameSpecimenAs(e));
    assert e in org && e in spec;
    MinTraceAttained(org, TraceOf(e));
    MinTraceAttained(spec, TraceOf(e));
    var o := OrgTrace(events, e);
    if o != TraceOf(e) {
      var x :| x in org && TraceOf(x) == o;
      assert x in spec;
    }
  }

  /** Events of one test-organism partition share trace_id_org. */
  lemma OrgTraceShared(events: seq<MicroEvent>, a: MicroEvent, b: MicroEvent)
    requires a in events && b in events && SameOrganism(a, b)
    ensures OrgTrace(events, a) == OrgTrace(events, b)
  {
    CrossRefOrder(events, a);
    CrossRefOrder(events, b);
  }

  /** Events of one specimen partition share trace_id_spec. */
  lemma SpecTraceShared(events: seq<MicroEvent>, a: MicroEvent, b: MicroEvent)
    requires a in events && b in events && SameSpecimen(a, b)
    ensures SpecTrace(events, a) == SpecTrace(events, b)
  {
    CrossRefOrder(events, a);
    CrossRefOrder(events, b);
  }

  /** The event that carries its test-organism partition's least trace_id. */
  predicate IsOrgLeader(events: seq<MicroEvent>, r: MicroEvent)
  {
    OrgTrace(events, r) == TraceOf(r)
  }

  /** The event that carries its specimen partition's least trace_id. */
  predicate IsSpecLeader(events: seq<MicroEvent>, r: MicroEvent)
  {
    SpecTrace(events, r) == TraceOf(r)
  }

  /** The event of e's partition that carries trace_id_org is that partition's leader. */
  lemma OrgLeaderOf(events: seq<MicroEvent>, e: MicroEvent, x: MicroEvent)
    requires UniqueTraces(events) && e in events && x in events && TraceOf(x) == OrgTrace(events, e)
    ensures SameOrganism(x, e) && IsOrgLeader(events, x)
    ensures CrossRefOf(events, x) == CrossRefOf(events, e).(traceIdAb := TraceOf(x))
  {
    CrossRefOrder(events, e);
    var y :| y in events && SameOrganism(y, e) && TraceOf(y) == OrgTrace(events, e);
    assert x == y;
    OrgTraceShared(events, x, e);
    SpecTraceShared(events, x, e);
  }

  /** The event of e's specimen partition that carries trace_id_spec is that partition's leader. */
  lemma SpecLeaderOf(events: seq<MicroEvent>, e: MicroEvent, x: MicroEvent)
    requires UniqueTraces(events) && e in events && x in events && TraceOf(x) == SpecTrace(events, e)
    ensures SameSpecimen(x, e) && IsSpecLeader(events, x)
  {
    CrossRefOrder(events, e);
    var y :| y in events && SameSpecimen(y, e) && TraceOf(y) == SpecTrace(events, e);
    assert x == y;
    SpecTraceShared(events, x, e);
  }

  /** A partition has one leader. */
  lemma OrgLeaderUnique(events: seq<MicroEvent>, r1: MicroEvent, r2: MicroEvent)
    requires UniqueTraces(events) && r1 in events && r2 in events
    requires IsOrgLeader(events, r1) && IsOrgLeader(events, r2) && SameOrganism(r1, r2)
    ensures r1 == r2
  {
    OrgTraceShared(events, r1, r2);
  }

  lemma SpecLeaderUnique(events: seq<MicroEvent>, r1: MicroEvent, r2: MicroEvent)
    requires UniqueTraces(events) && r1 in events && r2 in events
    requires IsSpecLeader(events, r1) && IsSpecLeader(events, r2) && SameSpecimen(r1, r2)
    ensures r1 == r2
  {
    SpecTraceShared(events, r1, r2);
  }

  /** A specimen leader also leads its own test-organism partition. */
  lemma SpecLeaderLeadsOrg(events: seq<MicroEvent>, r: MicroEvent)
    requires r in events && IsSpecLeader(events, r)
    ensures IsOrgLeader(events, r)
  {
    CrossRefOrder(events, r);
  }

  // ---------------------------------------------------------------------------
  // lk_micro_hadm_id

  function CrossKey(cr: CrossRef): EventKey
  {
    EventKey(cr.subjectId, cr.hadmId, cr.startDatetime, cr.traceIdAb)
  }

  /** createMicroWithId: the admissions containing each cross-reference row without a hadm_id, by trace_id_ab. */
  function MicroHadmCandidates(events: seq<MicroEvent>, adms: seq<AdmissionClean>): seq<HadmCandidate>
  {
    HadmCandidates(Map(MicroCrossReference(events), CrossKey), adms)
  }

  /** The key the admission inference sees for an event. */
  function MicroKey(e: MicroEvent): EventKey
  {
    EventKey(e.subjectId, e.hadmId, StartOf(e), TraceOf(e))
  }

  lemma MicroKeysUnique(events: seq<MicroEvent>, e: MicroEvent)
    requires UniqueTraces(events) && e in events
    ensures MicroKey(e) in Map(MicroCrossReference(events), CrossKey)
    ensures TraceUnique(Map(MicroCrossReference(events), CrossKey), MicroKey(e))
  {
    var refs := MicroCrossReference(events);
    CrossRefIn(events, e);
    MapMembership(refs, CrossKey);
    assert CrossKey(CrossRefOf(events, e)) == MicroKey(e);
    forall f | f in Map(refs, CrossKey) && f.traceId == TraceOf(e) ensures f == MicroKey(e) {
      var cr :| cr in refs && f == CrossKey(cr);
      var g := CrossRefFrom(events, cr);
      assert g == e;
    }
  }

  /**
   * The admission of an event as the microbiology tables see it, keyed by its own trace_id:
   * its own hadm_id when it has one; otherwise an admission of the same subject containing
   * COALESCE(charttime, chartdate), with no containing admission starting earlier, and NULL
   * exactly when no admission contains it.
   */
  lemma MicroAdmission(events: seq<MicroEvent>, adms: seq<AdmissionClean>, e: MicroEvent)
    requires UniqueTraces(events) && e in events
    ensures e.hadmId.Some? ==> LinkedHadm(e.hadmId, TraceOf(e), MicroHadmCandidates(events, adms)) == e.hadmId
    ensures e.hadmId.None? ==>
              var h := LinkedHadm(e.hadmId, TraceOf(e), MicroHadmCandidates(events, adms));
              (h.None? <==> forall a :: a in adms ==> !Contains(a, MicroKey(e))) &&
              (h.Some? ==> exists a :: a in adms && Contains(a, MicroKey(e)) && a.hadmId == h.value &&
                                       forall b :: b in adms && Contains(b, MicroKey(e)) ==> TsLe(a.startDatetime, b.startDatetime))
  {
    MicroKeysUnique(events, e);
    AdmissionInference(Map(MicroCrossReference(events), CrossKey), adms, MicroKey(e));
  }

  // ---------------------------------------------------------------------------
  // lk_meas_organism_clean

  datatype OrganismClean = OrganismClean(
    subjectId: int,
    hadmId: Option<int>,
    startDatetime: Timestamp,
    specItemid: Option<int>,
    testItemid: Option<int>,
    orgItemid: Option<int>,
    traceIdSpec: int,
    unitId: string,
    prov: Provenance)

  /** The row of an event src joined with a cross-reference row whose trace_id_org is src's trace_id. */
  function OrganismRow(src: MicroEvent, cr: CrossRef): OrganismClean
  {
    OrganismClean(src.subjectId, src.hadmId, cr.startDatetime, src.specItemid, src.testItemid, src.orgItemid,
                  cr.traceIdSpec, "micro.organism", Provenance(src.prov.loadTableId, Some(0), cr.traceIdOrg))
  }

  predicate HasTrace(e: MicroEvent, t: int)
  {
    TraceOf(e) == t
  }

  function HasTraceOf(t: int): MicroEvent -> bool
  {
    (e: MicroEvent) => HasTrace(e, t)
  }

  function OrganismRowAt(cr: CrossRef): MicroEvent -> OrganismClean
  {
    (src: MicroEvent) => OrganismRow(src, cr)
  }

  function OrganismRowsOf(events: seq<MicroEvent>, cr: CrossRef): seq<OrganismClean>
  {
    Map(Filter(events, HasTraceOf(cr.traceIdOrg)), OrganismRowAt(cr))
  }

  /** createMeasurementsOrganismClean: SELECT DISTINCT over src_microbiologyevents JOIN lk_micro_cross_ref ON trace_id = trace_id_org. */
  function OrganismCleanRows(events: seq<MicroEvent>): seq<OrganismClean>
  {
    Distinct(FlatMap(MicroCrossReference(events), (cr: CrossRef) => OrganismRowsOf(events, cr)))
  }

  /** The organism row of a test-organism partition, from its leader. */
  function OrgLeaderRow(events: seq<MicroEvent>, r: MicroEvent): OrganismClean
  {
    OrganismRow(r, CrossRefOf(events, r))
  }

  /** The event and the cross-reference row an organism row is joined from. */
  lemma OrganismRowSource(events: seq<MicroEvent>, row: OrganismClean) returns (src: MicroEvent, cr: CrossRef)
    requires row in OrganismCleanRows(events)
    ensures src in events && cr in MicroCrossReference(events) && TraceOf(src) == cr.traceIdOrg
    ensures row == OrganismRow(src, cr)
  {
    cr :| cr in MicroCrossReference(events) && row in OrganismRowsOf(events, cr);
    src := MapSource(Filter(events, HasTraceOf(cr.traceIdOrg)), OrganismRowAt(cr), row);
  }

  lemma OrganismRowIsLeaders(events: seq<MicroEvent>, row: OrganismClean)
    requires UniqueTraces(events) && row in OrganismCleanRows(events)
    ensures exists r :: r in events && IsOrgLeader(events, r) && row == OrgLeaderRow(events, r)
  {
    var src, cr := OrganismRowSource(events, row);
    var e := CrossRefFrom(events, cr);
    OrgLeaderOf(events, e, src);
    assert row == OrgLeaderRow(events, src);
  }

  lemma LeaderRowIsOrganism(events: seq<MicroEvent>, r: MicroEvent)
    requires r in events && IsOrgLeader(events, r)
    ensures OrgLeaderRow(events, r) in OrganismCleanRows(events)
  {
    var cr := CrossRefOf(events, r);
    CrossRefIn(events, r);
    assert r in Filter(events, HasTraceOf(cr.traceIdOrg));
    MapMembership(Filter(events, HasTraceOf(cr.traceIdOrg)), OrganismRowAt(cr));
    assert OrgLeaderRow(events, r) in OrganismRowsOf(events, cr);
  }

  /** lk_meas_organism_clean holds exactly the rows built from the test-organism partitions' leaders. */
  lemma OrganismRowsAreLeaders(events: seq<MicroEvent>)
    requires UniqueTraces(events)
    ensures forall row :: row in OrganismCleanRows(events) <==>
              exists r :: r in events && IsOrgLeader(events, r) && row == OrgLeaderRow(events, r)
  {
    forall row | row in OrganismCleanRows(events)
      ensures exists r :: r in events && IsOrgLeader(events, r) && row == OrgLeaderRow(events, r)
    {
      OrganismRowIsLeaders(events, row);
    }
    forall r | r in events && IsOrgLeader(events, r) ensures OrgLeaderRow(events, r) in OrganismCleanRows(events) {
      LeaderRowIsOrganism(events, r);
    }
  }

  /** Every test-organism partition has a leader: the event carrying its trace_id_org. */
  lemma OrgPartitionsHaveLeaders(events: seq<MicroEvent>)
    requires UniqueTraces(events)
    ensures forall e :: e in events ==> exists r :: r in events && IsOrgLeader(events, r) && SameOrganism(r, e)
  {
    forall e | e in events ensures exists r :: r in events && IsOrgLeader(events, r) && SameOrganism(r, e) {
      CrossRefOrder(events, e);
      var x :| x in events && SameOrganism(x, e) && TraceOf(x) == OrgTrace(events, e);
      OrgLeaderOf(events, e, x);
    }
  }

  /** No two organism rows share a trace_id: the trace_id of each is its leader's own. */
  lemma OrganismTracesDistinct(events: seq<MicroEvent>, row1: OrganismClean, row2: OrganismClean)
    requires UniqueTraces(events) && row1 in OrganismCleanRows(events) && row2 in OrganismCleanRows(events)
    requires row1.prov.traceId == row2.prov.traceId
    ensures row1 == row2
  {
    OrganismRowIsLeaders(events, row1);
    OrganismRowIsLeaders(events, row2);
    var r1 :| r1 in events && IsOrgLeader(events, r1) && row1 == OrgLeaderRow(events, r1);
    var r2 :| r2 in events && IsOrgLeader(events, r2) && row2 == OrgLeaderRow(events, r2);
    assert TraceOf(r1) == TraceOf(r2);
  }

  // ---------------------------------------------------------------------------
  // lk_specimen_clean

  datatype SpecimenClean = SpecimenClean(
    subjectId: int,
    hadmId: Option<int>,
    startDatetime: Timestamp,
    specItemid: Option<int>,
    unitId: string,
    prov: Provenance)

  function SpecimenRow(src: OrganismClean, cr: CrossRef): SpecimenClean
  {
    SpecimenClean(src.subjectId, src.hadmId, src.startDatetime, src.specItemid, "micro.specimen",
                  Provenance(src.prov.loadTableId, Some(0), cr.traceIdSpec))
  }

  predicate SpecTraceIs(cr: CrossRef, t: int)
  {
    cr.traceIdSpec == t
  }

  function SpecTraceIsOf(t: int): CrossRef -> bool
  {
    (cr: CrossRef) => SpecTraceIs(cr, t)
  }

  function SpecimenRowAt(src: OrganismClean): CrossRef -> SpecimenClean
  {
    (cr: CrossRef) => SpecimenRow(src, cr)
  }

  function SpecimenRowsOf(refs: seq<CrossRef>, src: OrganismClean): seq<SpecimenClean>
  {
    Map(Filter(refs, SpecTraceIsOf(src.prov.traceId)), SpecimenRowAt(src))
  }

  /** createSpecimenClean: SELECT DISTINCT over lk_meas_organism_clean JOIN lk_micro_cross_ref ON trace_id = trace_id_spec. */
  function SpecimenCleanOf(organisms: seq<OrganismClean>, refs: seq<CrossRef>): seq<SpecimenClean>
  {
    Distinct(FlatMap(organisms, (src: OrganismClean) => SpecimenRowsOf(refs, src)))
  }

  function SpecimenCleanRows(events: seq<MicroEvent>): seq<SpecimenClean>
  {
    SpecimenCleanOf(OrganismCleanRows(events), MicroCrossReference(events))
  }

  /** The specimen row of a specimen partition, from its leader. */
  function SpecLeaderRow(r: MicroEvent): SpecimenClean
  {
    SpecimenClean(r.subjectId, r.hadmId, StartOf(r), r.specItemid, "micro.specimen",
                  Provenance(r.prov.loadTableId, Some(0), TraceOf(r)))
  }

  /** The organism row and the cross-reference row a specimen row is joined from. */
  lemma SpecimenRowSource(organisms: seq<OrganismClean>, refs: seq<CrossRef>, row: SpecimenClean)
    returns (o: OrganismClean, cr: CrossRef)
    requires row in SpecimenCleanOf(organisms, refs)
    ensures o in organisms && cr in refs && cr.traceIdSpec == o.prov.traceId
    ensures row == SpecimenRow(o, cr)
  {
    o :| o in organisms && row in SpecimenRowsOf(refs, o);
    MapMembership(Filter(refs, SpecTraceIsOf(o.prov.traceId)), SpecimenRowAt(o));
    cr :| cr in Filter(refs, SpecTraceIsOf(o.prov.traceId)) && row == SpecimenRow(o, cr);
  }

  lemma SpecimenRowIsLeaders(events: seq<MicroEvent>, row: SpecimenClean)
    requires UniqueTraces(events) && row in SpecimenCleanRows(events)
    ensures exists r :: r in events && IsSpecLeader(events, r) && row == SpecLeaderRow(r)
  {
    var o, cr := SpecimenRowSource(OrganismCleanRows(events), MicroCrossReference(events), row);
    OrganismRowIsLeaders(events, o);
    var x :| x in events && IsOrgLeader(events, x) && o == OrgLeaderRow(events, x);
    var e := CrossRefFrom(events, cr);
    SpecLeaderOf(events, e, x);
    assert row == SpecLeaderRow(x);
  }

  lemma LeaderRowIsSpecimen(events: seq<MicroEvent>, r: MicroEvent)
    requires r in events && IsSpecLeader(events, r)
    ensures SpecLeaderRow(r) in SpecimenCleanRows(events)
  {
    var refs := MicroCrossReference(events);
    SpecLeaderLeadsOrg(events, r);
    var o := OrgLeaderRow(events, r);
    LeaderRowIsOrganism(events, r);
    var cr := CrossRefOf(events, r);
    CrossRefIn(events, r);
    assert cr in Filter(refs, SpecTraceIsOf(o.prov.traceId));
    MapMembership(Filter(refs, SpecTraceIsOf(o.prov.traceId)), SpecimenRowAt(o));
    assert SpecimenRow(o, cr) == SpecLeaderRow(r);
    assert SpecLeaderRow(r) in SpecimenRowsOf(refs, o);
  }

  /**
   * lk_specimen_clean holds exactly the rows built from the specimen partitions' leaders:
   * the organism row of the leader, joined back on trace_id_spec.
   */
  lemma SpecimenRowsAreLeaders(events: seq<MicroEvent>)
    requires UniqueTraces(events)
    ensures forall row :: row in SpecimenCleanRows(events) <==>
              exists r :: r in events && IsSpecLeader(events, r) && row == SpecLeaderRow(r)
  {
    forall row | row in SpecimenCleanRows(events)
      ensures exists r :: r in events && IsSpecLeader(events, r) && row == SpecLeaderRow(r)
    {
      SpecimenRowIsLeaders(events, row);
    }
    forall r | r in events && IsSpecLeader(events, r) ensures SpecLeaderRow(r) in SpecimenCleanRows(events) {
      LeaderRowIsSpecimen(events, r);
    }
  }

  /** Every specimen partition has a leader: the event carrying its trace_id_spec. */
  lemma SpecPartitionsHaveLeaders(events: seq<MicroEvent>)
    requires UniqueTraces(events)
    ensures forall e :: e in events ==> exists r :: r in events && IsSpecLeader(events, r) && SameSpecimen(r, e)
  {
    forall e | e in events ensures exists r :: r in events && IsSpecLeader(events, r) && SameSpecimen(r, e) {
      CrossRefOrder(events, e);
      var x :| x in events && SameSpecimen(x, e) && TraceOf(x) == SpecTrace(events, e);
      SpecLeaderOf(events, e, x);
    }
  }

  /** No two specimen rows share a trace_id. */
  lemma SpecimenTracesDistinct(events: seq<MicroEvent>, row1: SpecimenClean, row2: SpecimenClean)
    requires UniqueTraces(events) && row1 in SpecimenCleanRows(events) && row2 in SpecimenCleanRows(events)
    requires row1.prov.traceId == row2.prov.traceId
    ensures row1 == row2
  {
    SpecimenRowIsLeaders(events, row1);
    SpecimenRowIsLeaders(events, row2);
    var r1 :| r1 in events && IsSpecLeader(events, r1) && row1 == SpecLeaderRow(r1);
    var r2 :| r2 in events && IsSpecLeader(events, r2) && row2 == SpecLeaderRow(r2);
    assert TraceOf(r1) == TraceOf(r2);
  }

  // ---------------------------------------------------------------------------
  // lk_meas_ab_clean

  datatype AbClean = AbClean(
    subjectId: int,
    hadmId: Option<int>,
    startDatetime: Timestamp,
    abItemid: Option<int>,
    dilutionComparison: Option<string>,
    dilutionValue: Option<real>,
    interpretation: Option<string>,
    traceIdOrg: int,
    unitId: string,
    prov: Provenance)

  function AbRow(src: MicroEvent, cr: CrossRef): AbClean
  {
    AbClean(src.subjectId, src.hadmId, cr.startDatetime, src.abItemid, src.dilutionComparison, src.dilutionValue,
            src.interpretation, cr.traceIdOrg, "micro.antibiotics", Provenance(src.prov.loadTableId, Some(0), TraceOf(src)))
  }

  predicate AbTraceIs(cr: CrossRef, t: int)
  {
    cr.traceIdAb == t
  }

  function AbTraceIsOf(t: int): CrossRef -> bool
  {
    (cr: CrossRef) => AbTraceIs(cr, t)
  }

  function AbRowAt(src: MicroEvent): CrossRef -> AbClean
  {
    (cr: CrossRef) => AbRow(src, cr)
  }

  /** The rows of one event: its cross-reference row, and none without an antibiotic. */
  function AbRowsOf(refs: seq<CrossRef>, src: MicroEvent): seq<AbClean>
  {
    if src.abItemid.None? then [] else Map(Filter(refs, AbTraceIsOf(TraceOf(src))), AbRowAt(src))
  }

  /** createMeasurementsAntibioticClean: events with an antibiotic, joined on trace_id = trace_id_ab. */
  function AbCleanOf(events: seq<MicroEvent>, refs: seq<CrossRef>): seq<AbClean>
  {
    FlatMap(events, (src: MicroEvent) => AbRowsOf(refs, src))
  }

  function AbCleanRows(events: seq<MicroEvent>): seq<AbClean>
  {
    AbCleanOf(events, MicroCrossReference(events))
  }

  /** An event with an antibiotic whose trace_id names one cross-reference row joins that row alone. */
  lemma AbRowsOfOne(refs: seq<CrossRef>, src: MicroEvent, c: CrossRef)
    requires src.abItemid.Some? && c in refs && c.traceIdAb == TraceOf(src)
    requires forall cr :: cr in refs && cr.traceIdAb == TraceOf(src) ==> cr == c
    ensures forall row :: row in AbRowsOf(refs, src) <==> row == AbRow(src, c)
  {
    MapMembership(Filter(refs, AbTraceIsOf(TraceOf(src))), AbRowAt(src));
    assert c in Filter(refs, AbTraceIsOf(TraceOf(src)));
  }

  /** With unique trace_ids an event with an antibiotic joins exactly its own cross-reference row. */
  lemma AbRowsOfEvent(events: seq<MicroEvent>, e: MicroEvent)
    requires UniqueTraces(events) && e in events && e.abItemid.Some?
    ensures forall row :: row in AbRowsOf(MicroCrossReference(events), e) <==> row == AbRow(e, CrossRefOf(events, e))
  {
    var refs := MicroCrossReference(events);
    CrossRefIn(events, e);
    forall cr | cr in refs && cr.traceIdAb == TraceOf(e) ensures cr == CrossRefOf(events, e) {
      var g := CrossRefFrom(events, cr);
      assert g == e;
    }
    AbRowsOfOne(refs, e, CrossRefOf(events, e));
  }

  /**
   * Only events with a non-NULL ab_itemid feed lk_meas_ab_clean, each with its own
   * cross-reference row: trace_id_org is the least trace_id of its test-organism partition,
   * at most its own trace_id.
   */
  lemma AbCleanFromEvents(events: seq<MicroEvent>)
    requires UniqueTraces(events)
    ensures forall row :: row in AbCleanRows(events) <==>
              exists e :: e in events && e.abItemid.Some? && row == AbRow(e, CrossRefOf(events, e))
    ensures forall row :: row in AbCleanRows(events) ==>
              row.abItemid.Some? && row.traceIdOrg <= row.prov.traceId
  {
    var refs := MicroCrossReference(events);
    forall e | e in events && e.abItemid.Some?
      ensures forall row :: row in AbRowsOf(refs, e) <==> row == AbRow(e, CrossRefOf(events, e))
    {
      AbRowsOfEvent(events, e);
    }
    forall row | row in AbCleanRows(events) ensures row.abItemid.Some? && row.traceIdOrg <= row.prov.traceId {
      var e :| e in events && row in AbRowsOf(refs, e);
      CrossRefOrder(events, e);
    }
  }
}
