/**
 * The admission-id inference the lab and microbiology mappers share. For the
 * events whose hadm_id is NULL, lk_*_hadm_id joins every admission of the same
 * subject whose [start_datetime, end_datetime] contains the event time and
 * numbers them per event trace_id by ascending start; the mapped stage takes
 * COALESCE(event hadm_id, the admission numbered 1).
 *
 * Equal start times leave ROW_NUMBER's choice open; the model takes the first
 * such admission in table order.
 */
module AdmissionLink {
  import opened Sql
  import opened Source

  /** The columns of an event row the inference reads. */
  datatype EventKey = EventKey(subjectId: int, hadmId: Option<int>, time: Timestamp, traceId: int)

  /** A row of lk_*_hadm_id: an admission that contains an event, with its start for ROW_NUMBER. */
  datatype HadmCandidate = HadmCandidate(eventTraceId: int, hadmId: int, start: Timestamp)

  /** adm.subject_id = src.subject_id AND src.start_datetime BETWEEN adm.start_datetime AND adm.end_datetime */
  predicate Contains(a: AdmissionClean, e: EventKey)
  {
    a.subjectId == e.subjectId && TsLe(a.startDatetime, e.time) && TsLe(e.time, a.endDatetime)
  }

  function CandidateOf(e: EventKey, a: AdmissionClean): HadmCandidate
  {
    HadmCandidate(e.traceId, a.hadmId, a.startDatetime)
  }

  /** The admissions containing one event, as candidate rows. */
  function EventCandidates(e: EventKey, adms: seq<AdmissionClean>): seq<HadmCandidate>
  {
    Map(Filter(adms, (a: AdmissionClean) => Contains(a, e)), (a: AdmissionClean) => CandidateOf(e, a))
  }

  predicate NoHadm(e: EventKey)
  {
    e.hadmId.None?
  }

  /** lk_*_hadm_id before the row_num = 1 filter: the candidates of every event with a NULL hadm_id. */
  function HadmCandidates(events: seq<EventKey>, adms: seq<AdmissionClean>): seq<HadmCandidate>
  {
    FlatMap(Filter(events, NoHadm), (e: EventKey) => EventCandidates(e, adms))
  }

  /** The first row with the earliest start: ROW_NUMBER() ... ORDER BY start_datetime = 1. */
  function Earliest(cs: seq<HadmCandidate>): (r: Option<HadmCandidate>)
    ensures r.None? <==> cs == []
    ensures r.Some? ==> r.value in cs && forall c :: c in cs ==> TsLe(r.value.start, c.start)
  {
    if cs == [] then None
    else
      var rest := Earliest(cs[1..]);
      if rest.None? then Some(cs[0])
      else
        TsLeTotal(cs[0].start, rest.value.start);
        forall c | c in cs[1..] ensures TsLe(cs[0].start, rest.value.start) ==> TsLe(cs[0].start, c.start) {
          if TsLe(cs[0].start, rest.value.start) {
            TsLeTrans(cs[0].start, rest.value.start, c.start);
          }
        }
        if TsLe(cs[0].start, rest.value.start) then Some(cs[0]) else rest
  }

  predicate ForTrace(c: HadmCandidate, traceId: int)
  {
    c.eventTraceId == traceId
  }

  /** The partition of lk_*_hadm_id that ROW_NUMBER numbers for one trace_id. */
  function TraceCandidates(cands: seq<HadmCandidate>, traceId: int): seq<HadmCandidate>
  {
    Filter(cands, (x: HadmCandidate) => ForTrace(x, traceId))
  }

  /** LEFT JOIN lk_*_hadm_id ON event_trace_id = trace_id AND row_num = 1. */
  function InferredHadm(cands: seq<HadmCandidate>, traceId: int): Option<int>
  {
    match Earliest(TraceCandidates(cands, traceId))
    case None => None
    case Some(c) => Some(c.hadmId)
  }

  /** COALESCE(src.hadm_id, hadm.hadm_id). */
  function LinkedHadm(hadmId: Option<int>, traceId: int, cands: seq<HadmCandidate>): Option<int>
  {
    if hadmId.Some? then hadmId else InferredHadm(cands, traceId)
  }

  /** No other event of the table carries e's trace_id. */
  predicate TraceUnique(events: seq<EventKey>, e: EventKey)
  {
    forall f :: f in events && f.traceId == e.traceId ==> f == e
  }

  /** The candidate rows numbered for e's trace_id are exactly the admissions containing e. */
  lemma CandidatesOfEvent(events: seq<EventKey>, adms: seq<AdmissionClean>, e: EventKey)
    requires e in events && NoHadm(e) && TraceUnique(events, e)
    ensures forall c :: c in TraceCandidates(HadmCandidates(events, adms), e.traceId) <==>
                        exists a :: a in adms && Contains(a, e) && c == CandidateOf(e, a)
  {
    var cands := HadmCandidates(events, adms);
    forall c
      ensures c in TraceCandidates(cands, e.traceId) <==>
              exists a :: a in adms && Contains(a, e) && c == CandidateOf(e, a)
    {
      MapMembership(Filter(adms, (a: AdmissionClean) => Contains(a, e)), (a: AdmissionClean) => CandidateOf(e, a));
      if c in cands && ForTrace(c, e.traceId) {
        var f :| f in Filter(events, NoHadm) && c in EventCandidates(f, adms);
        MapMembership(Filter(adms, (a: AdmissionClean) => Contains(a, f)), (a: AdmissionClean) => CandidateOf(f, a));
        assert f == e;
      }
      if exists a :: a in adms && Contains(a, e) && c == CandidateOf(e, a) {
        assert e in Filter(events, NoHadm);
        assert c in EventCandidates(e, adms);
      }
    }
  }

  /**
   * The inferred admission of an event: a source hadm_id is never replaced; otherwise it is
   * an admission of the same subject containing the event time with no containing admission
   * starting earlier; and it is NULL exactly when no admission contains the event.
   */
  lemma AdmissionInference(events: seq<EventKey>, adms: seq<AdmissionClean>, e: EventKey)
    requires e in events && TraceUnique(events, e)
    ensures e.hadmId.Some? ==> LinkedHadm(e.hadmId, e.traceId, HadmCandidates(events, adms)) == e.hadmId
    ensures e.hadmId.None? ==>
              var h := LinkedHadm(e.hadmId, e.traceId, HadmCandidates(events, adms));
              (h.None? <==> forall a :: a in adms ==> !Contains(a, e)) &&
              (h.Some? ==> exists a :: a in adms && Contains(a, e) && a.hadmId == h.value &&
                                       forall b :: b in adms && Contains(b, e) ==> TsLe(a.startDatetime, b.startDatetime))
  {
    if e.hadmId.None? {
      var ours := TraceCandidates(HadmCandidates(events, adms), e.traceId);
      CandidatesOfEvent(events, adms, e);
      if exists a :: a in adms && Contains(a, e) {
        var a :| a in adms && Contains(a, e);
        assert CandidateOf(e, a) in ours;
      }
      if ours != [] {
        assert ours[0] in ours;
      }
      var r := Earliest(ours);
      if r.Some? {
        var a :| a in adms && Contains(a, e) && r.value == CandidateOf(e, a);
        forall b | b in adms && Contains(b, e) ensures TsLe(a.startDatetime, b.startDatetime) {
          assert CandidateOf(e, b) in ours;
        }
      }
    }
  }

  /** Subject 10 stays from 2020-01-01 to 2020-01-05 (admission 1) and from 2020-01-10 to 2020-01-15 (admission 2). */
  const ExampleStays := [AdmissionClean(10, 1, Timestamp(Date(2020, 1, 1), 0), Timestamp(Date(2020, 1, 5), 0)),
                         AdmissionClean(10, 2, Timestamp(Date(2020, 1, 10), 0), Timestamp(Date(2020, 1, 15), 0))]

  /** Two events of subject 10 without an admission: on 2020-01-03, and on 2020-01-08 between the stays. */
  const InStay := EventKey(10, None, Timestamp(Date(2020, 1, 3), 0), 7)
  const InGap := EventKey(10, None, Timestamp(Date(2020, 1, 8), 0), 8)

  /** The event during the first stay is linked to admission 1. */
  lemma InferenceInStay()
    ensures LinkedHadm(InStay.hadmId, InStay.traceId, HadmCandidates([InStay, InGap], ExampleStays)) == Some(1)
  {
    var a1, a2 := ExampleStays[0], ExampleStays[1];
    assert forall a :: a in ExampleStays ==> a == a1 || a == a2;
    assert Contains(a1, InStay) && !Contains(a2, InStay);
    AdmissionInference([InStay, InGap], ExampleStays, InStay);
  }

  /** The event between the two stays is linked to no admission. */
  lemma InferenceBetweenStays()
    ensures LinkedHadm(InGap.hadmId, InGap.traceId, HadmCandidates([InStay, InGap], ExampleStays)) == None
  {
    var a1, a2 := ExampleStays[0], ExampleStays[1];
    assert forall a :: a in ExampleStays ==> a == a1 || a == a2;
    assert !Contains(a1, InGap) && !Contains(a2, InGap);
    AdmissionInference([InStay, InGap], ExampleStays, InGap);
  }
}
