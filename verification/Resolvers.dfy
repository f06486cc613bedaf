/** The two reference models of an external system, and the resolver contract they meet. */
module Resolvers {
  import opened Wrappers
  import opened OutboxStore
  import opened Runner
  import opened SagaProtocol

  datatype ExportRecord = ExportRecord(field: string, category: string, value: string)

  type Holdings = map<string, seq<ExportRecord>>  // by subject reference

  function View(name: string, records: Holdings, horizons: map<string, int>): World {
    map v | v in records :: (name, v) := if v in horizons then Expiring(horizons[v]) else Held
  }

  // --- corrections ---------------------------------------------------------------------

  /** The last correction of a category wins. */
  function ValueFor(corrections: seq<Correction>, category: string): Option<string> {
    if corrections == [] then None
    else if corrections[|corrections| - 1].category == category then Some(corrections[|corrections| - 1].value)
    else ValueFor(corrections[..|corrections| - 1], category)
  }

  function Corrected(record: ExportRecord, corrections: seq<Correction>): ExportRecord {
    var value := ValueFor(corrections, record.category);
    if value.Some? then record.(value := value.value) else record
  }

  /** The k-th correction is the last one of the category. */
  predicate LastOf(corrections: seq<Correction>, category: string, k: nat) {
    && k < |corrections| && corrections[k].category == category
    && forall j :: k < j < |corrections| ==> corrections[j].category != category
  }

  function AllCorrected(held: seq<ExportRecord>, corrections: seq<Correction>): seq<ExportRecord> {
    seq(|held|, i requires 0 <= i < |held| => Corrected(held[i], corrections))
  }

  lemma {:induction false} LastStands(record: ExportRecord, corrections: seq<Correction>)
    ensures var after := Corrected(record, corrections);
            && after.field == record.field && after.category == record.category
            && (forall k: nat :: LastOf(corrections, record.category, k) ==> after.value == corrections[k].value)
            && ((forall c :: c in corrections ==> c.category != record.category) ==> after == record)
  {
    if corrections != [] {
      var n := |corrections| - 1;
      LastStands(record, corrections[..n]);
      assert corrections == corrections[..n] + [corrections[n]];
      assert ValueFor(corrections, record.category) == if corrections[n].category == record.category
          then Some(corrections[n].value) else ValueFor(corrections[..n], record.category);
      forall k: nat | LastOf(corrections, record.category, k) && k < n
        ensures LastOf(corrections[..n], record.category, k)
      {
        assert corrections[n].category != record.category;
      }
    }
  }

  /** Rectifying corrects every held record in its place: a correction replaces the value alone, of several
      for a category the last one stands, and a record no correction is for stays as it is. */
  lemma LastCorrectionStands(held: seq<ExportRecord>, corrections: seq<Correction>, i: nat)
    requires i < |held|
    ensures |AllCorrected(held, corrections)| == |held|
    ensures var before, after := held[i], AllCorrected(held, corrections)[i];
            && after.field == before.field && after.category == before.category
            && (forall k: nat :: LastOf(corrections, before.category, k) ==> after.value == corrections[k].value)
            && ((forall c :: c in corrections ==> c.category != before.category) ==> after == before)
  {
    LastStands(held[i], corrections);
  }

  /** Applying corrections twice is applying them once, so a retried call reports consistency. */
  lemma CorrectingConverges(held: seq<ExportRecord>, corrections: seq<Correction>)
    ensures AllCorrected(AllCorrected(held, corrections), corrections) == AllCorrected(held, corrections)
  {}

  // --- a system that deletes on demand -----------------------------------------------------

  class InMemoryResolver {
    const name: string
    var records: Holdings

    constructor (name: string, records: Holdings)
      ensures this.name == name && this.records == records
    {
      this.name, this.records := name, records;
    }

    method EraseSubject(ref: string, ghost now: int) returns (o: Outcome)
      modifies this
      ensures records == old(records) - {ref}
      ensures o == Erased(ref !in old(records), None)
      ensures Contract(now, (name, ref), o, old(View(name, records, map[])), View(name, records, map[]))
    {
      var present := ref in records;
      records := records - {ref};
      o := Erased(!present, None);
    }

    method VerifyAbsent(ref: string) returns (confirmed: bool)
      ensures forall now :: confirmed <==> Absent(View(name, records, map[]), now, (name, ref))
    {
      confirmed := ref !in records;
      assert (name, ref) in View(name, records, map[]) <==> ref in records;
    }

    /** One erasure as the runner calls it: where verification is wanted the read-back follows, and it
        always confirms. */
    method EraseAndVerify(ref: string, verify: bool, ghost now: int) returns (o: Outcome)
      modifies this
      ensures o == Erased(ref !in old(records), if verify then Some(true) else None)
      ensures Answers(Erase(verify), o) && records == old(records) - {ref}
      ensures Contract(now, (name, ref), o, old(View(name, records, map[])), View(name, records, map[]))
    {
      o := EraseSubject(ref, now);
      if verify {
        var confirmed := VerifyAbsent(ref);
        assert (name, ref) !in View(name, records, map[]);
        assert confirmed <==> Absent(View(name, records, map[]), now, (name, ref));
        o := Erased(o.alreadyAbsent, Some(confirmed));
      }
    }

    method RectifySubject(ref: string, corrections: seq<Correction>, ghost now: int) returns (o: Outcome)
      modifies this
      ensures o.Rectified? && (o.alreadyConsistent <==> records == old(records))
      ensures records == if ref !in old(records) then old(records)
                         else old(records)[ref := AllCorrected(old(records)[ref], corrections)]
      ensures Contract(now, (name, ref), o, old(View(name, records, map[])), View(name, records, map[]))
    {
      if ref !in records {
        return Rectified(true);
      }
      var held := records[ref];
      var updated := AllCorrected(held, corrections);
      ghost var before := records;
      records := records[ref := updated];
      assert records[ref] == updated;
      assert updated == held ==> records == before;
      o := Rectified(updated == held);
    }
  }

  // --- a system that can only expire data -----------------------------------------------------

  predicate Passed(horizons: map<string, int>, now: int, ref: string) {
    ref in horizons && horizons[ref] <= now
  }

  function Expired(horizons: map<string, int>, now: int): set<string> {
    set v | v in horizons && horizons[v] <= now
  }

  lemma ExpiredIsAbsent(name: string, records: Holdings, horizons: map<string, int>, now: int)
    ensures forall v :: v in records - Expired(horizons, now)
                        <==> !Absent(View(name, records, horizons), now, (name, v))
  {
    forall v ensures v in records - Expired(horizons, now) <==> !Absent(View(name, records, horizons), now, (name, v)) {
      assert (name, v) in View(name, records, horizons) <==> v in records;
    }
  }

  class InMemoryRetentionOnlyResolver {
    const name: string
    const retention: int
    var records: Holdings
    var horizons: map<string, int>

    constructor (name: string, records: Holdings, retention: int)
      ensures this.name == name && this.records == records && this.retention == retention && horizons == map[]
    {
      this.name, this.records, this.retention, horizons := name, records, retention, map[];
    }

    /** The vendor's retention job. */
    method PurgeExpired(now: int)
      modifies this
      ensures records == old(records) - Expired(old(horizons), now)
      ensures horizons == old(horizons) - Expired(old(horizons), now)
      ensures forall v :: v in records <==> !Absent(old(View(name, records, horizons)), now, (name, v))
    {
      ExpiredIsAbsent(name, records, horizons, now);
      var listed := horizons;
      var left := listed.Keys;
      while left != {}
        invariant left <= listed.Keys
        invariant records == old(records) - (Expired(listed, now) - left)
        invariant horizons == listed - (Expired(listed, now) - left)
      {
        var v :| v in left;
        ghost var done := Expired(listed, now) - left;
        if listed[v] <= now {
          assert Expired(listed, now) - (left - {v}) == done + {v};
          records := records - {v};
          horizons := horizons - {v};
        } else {
          assert Expired(listed, now) - (left - {v}) == done;
        }
        left := left - {v};
      }
      assert Expired(listed, now) - left == Expired(listed, now);
    }

    method EraseSubject(ref: string) returns (o: Outcome)
      ensures o.Refused?
    {
      o := Refused("ResolverError");
    }

    /** Reports a horizon, and keeps the first one it set, until the data is gone; then, and only
        then, it reports absence. */
    method ScheduleErasure(ref: string, now: int) returns (o: Outcome)
      modifies this
      ensures o == Expiry(None) <==> ref !in old(records) || Passed(old(horizons), now, ref)
      ensures o == Expiry(None) <==> Absent(old(View(name, records, horizons)), now, (name, ref))
      ensures o == Expiry(None) ==> ref !in records
      ensures o != Expiry(None) ==>
                && o == Expiry(Some(if ref in old(horizons) then old(horizons)[ref] else now + retention))
                && ref in horizons && o.expiresAt == Some(horizons[ref])
                && ref in records && records[ref] == old(records)[ref]
      ensures records == old(records) - Expired(old(horizons), now)
      ensures Contract(now, (name, ref), o, old(View(name, records, horizons)), View(name, records, horizons))
    {
      PurgeExpired(now);
      if ref !in records {
        return Expiry(None);
      }
      if ref !in horizons {
        horizons := horizons[ref := now + retention];
      }
      o := Expiry(Some(horizons[ref]));
    }

    /** The held records, each with the horizon once one is set; nothing after it has passed. */
    method ExportSubject(ref: string, now: int) returns (held: seq<(ExportRecord, Option<int>)>)
      modifies this
      ensures records == old(records) - Expired(old(horizons), now)
      ensures horizons == old(horizons) - Expired(old(horizons), now)
      ensures |held| == if ref in records then |old(records)[ref]| else 0
      ensures forall i :: 0 <= i < |held| ==>
                ref in records && held[i] == (records[ref][i], if ref in horizons then Some(horizons[ref]) else None)
    {
      PurgeExpired(now);
      if ref !in records {
        return [];
      }
      var found, at := records[ref], if ref in horizons then Some(horizons[ref]) else None;
      held := seq(|found|, i requires 0 <= i < |found| => (found[i], at));
    }
  }
}
