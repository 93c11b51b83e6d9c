/** Cluster status in the centre: the merge patch of section 2 of RFC 7396, and the patch that
    PatchStatus computes and the API server applies. */
module StatusPatch {

  import opened Options
  import opened Optimistic
  import opened Retries

  /** JSON values; arrays are only ever replaced as a whole. */
  datatype Json =
    | Null
    | Bool(b: bool)
    | Num(n: int)
    | Str(s: string)
    | Arr(items: seq<Json>)
    | Obj(fields: map<string, Json>)

  function Fields(j: Json): map<string, Json> {
    if j.Obj? then j.fields else map[]
  }

  function Field(j: Json, k: string): Json {
    if k in Fields(j) then Fields(j)[k] else Null
  }

  /** MergePatch(target, patch). */
  function Merge(target: Json, patch: Json): Json
    decreases patch
  {
    if !patch.Obj? then patch
    else
      Obj(map k | k in Fields(target).Keys + patch.fields.Keys && (k in patch.fields ==> patch.fields[k] != Null)
            :: if k in patch.fields then Merge(Field(target, k), patch.fields[k]) else Fields(target)[k])
  }

  /** No field at any depth of nested objects is null. */
  predicate Clean(j: Json) {
    j.Obj? ==> forall k :: k in j.fields ==> j.fields[k] != Null && Clean(j.fields[k])
  }

  /** The patch nulls no field that is there, and leaves alone no field that holds a null. */
  predicate Stable(prior: Json, latest: Json)
    decreases latest
  {
    prior.Obj? && latest.Obj? ==>
      && (forall k :: k in latest.fields && k in prior.fields ==>
                        latest.fields[k] != Null && Stable(prior.fields[k], latest.fields[k]))
      && (forall k :: k in prior.fields && k !in latest.fields ==> prior.fields[k] != Null && Clean(prior.fields[k]))
  }

  lemma MergeNotNull(target: Json, patch: Json)
    requires patch != Null
    ensures Merge(target, patch) != Null
  {
  }

  /** On top of anything but an object, merging strips the nulls. */
  lemma {:induction false} MergeOntoNothing(target: Json, patch: Json)
    requires !target.Obj?
    ensures Clean(Merge(target, patch)) || patch == Null
    ensures Clean(patch) ==> Merge(target, patch) == patch
    decreases patch
  {
    if patch.Obj? {
      forall k | k in patch.fields && patch.fields[k] != Null
        ensures Clean(Merge(Null, patch.fields[k]))
        ensures Clean(patch.fields[k]) ==> Merge(Null, patch.fields[k]) == patch.fields[k]
      {
        MergeOntoNothing(Null, patch.fields[k]);
      }
      if Clean(patch) {
        assert Merge(target, patch).fields == patch.fields;
      }
    }
  }

  /** Merging a document onto itself changes nothing exactly if it has no null fields. */
  lemma {:induction false} MergeSelfIff(j: Json)
    ensures Merge(j, j) == j <==> Clean(j)
    decreases j
  {
    if j.Obj? {
      var m := Merge(j, j);
      forall k | k in j.fields
        ensures k in m.fields <==> j.fields[k] != Null
        ensures j.fields[k] != Null ==> (m.fields[k] == j.fields[k] <==> Clean(j.fields[k]))
      {
        MergeSelfIff(j.fields[k]);
      }
      if Clean(j) {
        assert m.fields == j.fields;
      } else {
        var k :| k in j.fields && !(j.fields[k] != Null && Clean(j.fields[k]));
        assert k in m.fields ==> m.fields[k] != j.fields[k];
      }
    }
  }

  /** What a merge of the old with the merged document holds at one field. */
  lemma TwiceAt(prior: Json, latest: Json, k: string)
    requires prior.Obj? && latest.Obj?
    ensures var r := Merge(prior, latest);
            var twice := Merge(prior, r);
            && r.Obj? && twice.Obj?
            && (k in r.fields ==> (k in twice.fields <==> r.fields[k] != Null))
            && (k in r.fields && r.fields[k] != Null ==> twice.fields[k] == Merge(Field(prior, k), r.fields[k]))
            && (k !in r.fields ==> (k in twice.fields <==> k in prior.fields))
  {
  }

  /** For documents of any shape: merging the merged document onto the old one once more gives
      the merged document if and only if the patch is stable. */
  lemma {:induction false} PatchTwiceIff(prior: Json, latest: Json)
    ensures Merge(prior, Merge(prior, latest)) == Merge(prior, latest) <==> Stable(prior, latest)
    decreases latest
  {
    var r := Merge(prior, latest);
    var twice := Merge(prior, r);
    if latest.Obj? && !prior.Obj? {
      MergeOntoNothing(prior, latest);
      MergeOntoNothing(prior, r);
    } else if latest.Obj? {
      forall k
        ensures Same(twice, r, k) <==> StableAt(prior, latest, k)
      {
        FieldTwiceIff(prior, latest, k);
      }
      SameFields(twice, r);
      StableFields(prior, latest);
    }
  }

  /** One field is the same in both objects, or in neither. */
  predicate Same(a: Json, b: Json, k: string)
    requires a.Obj? && b.Obj?
  {
    (k in a.fields <==> k in b.fields) && (k in a.fields ==> a.fields[k] == b.fields[k])
  }

  lemma SameFields(a: Json, b: Json)
    requires a.Obj? && b.Obj?
    ensures a == b <==> forall k :: Same(a, b, k)
  {
    if forall k :: Same(a, b, k) {
      assert forall k :: k in a.fields <==> k in b.fields by {
        forall k
          ensures k in a.fields <==> k in b.fields
        {
          assert Same(a, b, k);
        }
      }
      assert forall k :: k in a.fields ==> a.fields[k] == b.fields[k] by {
        forall k | k in a.fields
          ensures a.fields[k] == b.fields[k]
        {
          assert Same(a, b, k);
        }
      }
      assert a.fields == b.fields;
    }
  }

  /** The part of `Stable` about one field. */
  predicate StableAt(prior: Json, latest: Json, k: string)
    requires prior.Obj? && latest.Obj?
  {
    && (k in latest.fields && k in prior.fields ==>
          latest.fields[k] != Null && Stable(prior.fields[k], latest.fields[k]))
    && (k in prior.fields && k !in latest.fields ==> prior.fields[k] != Null && Clean(prior.fields[k]))
  }

  lemma StableFields(prior: Json, latest: Json)
    requires prior.Obj? && latest.Obj?
    ensures Stable(prior, latest) <==> forall k :: StableAt(prior, latest, k)
  {
    if forall k :: StableAt(prior, latest, k) {
      forall k | k in prior.fields
        ensures k in latest.fields ==> latest.fields[k] != Null && Stable(prior.fields[k], latest.fields[k])
        ensures k !in latest.fields ==> prior.fields[k] != Null && Clean(prior.fields[k])
      {
        assert StableAt(prior, latest, k);
      }
    }
  }

  lemma {:induction false} FieldTwiceIff(prior: Json, latest: Json, k: string)
    requires prior.Obj? && latest.Obj?
    ensures Same(Merge(prior, Merge(prior, latest)), Merge(prior, latest), k) <==> StableAt(prior, latest, k)
    decreases latest, 0
  {
    TwiceAt(prior, latest, k);
    if k in latest.fields && latest.fields[k] != Null {
      MergeNotNull(Field(prior, k), latest.fields[k]);
      PatchTwiceIff(Field(prior, k), latest.fields[k]);
    } else if k in prior.fields && k !in latest.fields {
      MergeSelfIff(prior.fields[k]);
    }
  }

  /** A deletion is lost: the merged document no longer has the field, but the server keeps it. */
  lemma DeletionIsLost(k: string, v: Json)
    ensures var prior, latest := Obj(map[k := v]), Obj(map[k := Null]);
            Merge(prior, latest) == Obj(map[]) && Merge(prior, Merge(prior, latest)) == prior
  {
    var prior, latest := Obj(map[k := v]), Obj(map[k := Null]);
    assert Merge(prior, latest).fields == map[];
    assert Merge(prior, Obj(map[])).fields == prior.fields;
  }

  /** Documents without null fields are always stable, so what the server stores is the merge. */
  lemma {:induction false} CleanIsStable(prior: Json, latest: Json)
    requires Clean(prior) && Clean(latest)
    ensures Stable(prior, latest)
    decreases latest
  {
    if prior.Obj? && latest.Obj? {
      forall k | k in latest.fields && k in prior.fields
        ensures Stable(prior.fields[k], latest.fields[k])
      {
        CleanIsStable(prior.fields[k], latest.fields[k]);
      }
    }
  }

  // ----- Fields that a report leaves out -----

  /** The value at a path, if every step leads into an object that has the field. */
  function At(j: Json, path: seq<string>): Option<Json> {
    if path == [] then Some(j)
    else if path[0] in Fields(j) then At(Fields(j)[path[0]], path[1..])
    else None
  }

  /** The document says nothing about the path. */
  predicate Omits(j: Json, path: seq<string>) {
    path != [] && j.Obj? && (path[0] in j.fields ==> Omits(j.fields[path[0]], path[1..]))
  }

  /** What the patch leaves out survives, at any depth. */
  lemma {:induction false} OmittedSurvives(target: Json, patch: Json, path: seq<string>)
    requires Omits(patch, path)
    ensures At(Merge(target, patch), path) == At(target, path)
    decreases patch
  {
    var k := path[0];
    if k in patch.fields {
      OmittedSurvives(Field(target, k), patch.fields[k], path[1..]);
    }
  }

  /** What the patch says is what is there afterwards, at any depth: a value that is no object
      replaces whatever was there, and a null removes it. */
  lemma {:induction false} PatchedIsThere(target: Json, patch: Json, path: seq<string>)
    requires At(patch, path).Some? && !At(patch, path).value.Obj? && path != []
    ensures At(Merge(target, patch), path) == if At(patch, path) == Some(Null) then None else At(patch, path)
    decreases patch
  {
    var k := path[0];
    if |path| == 1 {
      assert path[1..] == [];
    } else if patch.fields[k] != Null {
      PatchedIsThere(Field(target, k), patch.fields[k], path[1..]);
    }
  }

  // ----- UpdateStatus and PatchStatus -----

  datatype How = Replace | Patch

  /** A new cluster status and the call that carries it; every status has a timestamp. */
  datatype Report = Report(how: How, timestamp: int, rest: map<string, Json>)

  function Status(r: Report): Json {
    Obj(r.rest["timestamp" := Num(r.timestamp)])
  }

  /** The document with its status replaced. */
  function WithStatus(doc: Json, status: Json): Json {
    Obj(Fields(doc)["status" := status])
  }

  /** The body PatchStatus sends: the full merge of the old with the updated document. */
  function PatchBytes(doc: Json, status: Json): Json {
    Merge(doc, WithStatus(doc, status))
  }

  /** The stored document after an accepted write to the one that was read. */
  function Stored(r: Report, doc: Json): Json {
    match r.how
    case Replace => WithStatus(doc, Status(r))
    case Patch => Merge(doc, PatchBytes(doc, Status(r)))
  }

  /** The timestamp of a stored document; a missing one reads as zero. */
  function Timestamp(doc: Json): int {
    var t := Field(Field(doc, "status"), "timestamp");
    if t.Num? then t.n else 0
  }

  /** updateClusterIsValid: the new timestamp is strictly greater. */
  predicate IsValid(r: Report, doc: Json) {
    r.timestamp > Timestamp(doc)
  }

  /** Both writers. UpdateStatus retries conflicts, PatchStatus does not; the patch carries the
      resource version of the document it was computed from, so a stale one is refused too. */
  const StatusHandler: Handler<Report, Json> := Handler(
                                                  (r: Report, doc: Json) => IsValid(r, doc),
                                                  (r: Report, doc: Json, phase: nat) => Stored(r, doc),
                                                  None, 1,
                                                  (r: Report) => if r.how.Patch? then 1 else 5,
                                                  (doc: Json) => Some(Timestamp(doc)),
                                                  1)

  ghost predicate Stamped(doc: Json, t: int) {
    Field(Field(doc, "status"), "timestamp") == Num(t)
  }

  lemma MergedTimestamp(target: Json, patch: Json, t: int)
    requires Stamped(patch, t)
    ensures Stamped(Merge(target, patch), t)
  {
    var status := Field(patch, "status");
    assert status.Obj? && status.fields["timestamp"].Num?;
    assert patch.Obj? && "status" in patch.fields && patch.fields["status"] != Null;
    var merged := Merge(Field(target, "status"), status);
    assert Field(Merge(target, patch), "status") == merged;
    assert merged.fields["timestamp"] == Merge(Field(Field(target, "status"), "timestamp"), status.fields["timestamp"]);
  }

  /** Either way of writing stores the timestamp of the report. */
  lemma StoredTimestamp(r: Report, doc: Json)
    ensures Timestamp(Stored(r, doc)) == r.timestamp
  {
    var updated := WithStatus(doc, Status(r));
    assert Stamped(updated, r.timestamp);
    MergedTimestamp(doc, updated, r.timestamp);
    MergedTimestamp(doc, PatchBytes(doc, Status(r)), r.timestamp);
  }

  /** Either way of writing stores every field of the report that holds a value, at any depth. */
  lemma ReportedIsStored(r: Report, doc: Json, path: seq<string>)
    requires At(Status(r), path).Some? && !At(Status(r), path).value.Obj? && At(Status(r), path) != Some(Null)
    ensures At(Field(Stored(r, doc), "status"), path) == At(Status(r), path)
  {
    var updated, full := WithStatus(doc, Status(r)), ["status"] + path;
    assert full[1..] == path && At(updated, full) == At(Status(r), path);
    PatchedIsThere(doc, updated, full);
    PatchedIsThere(doc, PatchBytes(doc, Status(r)), full);
    AtField(Stored(r, doc), "status", path);
  }

  lemma AtField(j: Json, k: string, path: seq<string>)
    requires At(j, [k] + path).Some?
    ensures At(j, [k] + path) == At(Field(j, k), path)
  {
    assert ([k] + path)[1..] == path;
  }

  /** Merging a document with itself and the result with the document gives the document back:
      the nulls that the first merge strips are only left out of the second. */
  lemma {:induction false} MergeSelfTwice(j: Json)
    ensures Merge(j, Merge(j, j)) == j
    decreases j
  {
    if j.Obj? {
      var twice := Merge(j, Merge(j, j));
      forall k | k in j.fields
        ensures k in twice.fields && twice.fields[k] == j.fields[k]
      {
        TwiceAt(j, j, k);
        if j.fields[k] != Null {
          MergeSelfTwice(j.fields[k]);
          MergeNotNull(j.fields[k], j.fields[k]);
        }
      }
      assert twice.fields == j.fields;
    }
  }

  /** Nothing but the status changes, in any document. */
  lemma OtherFieldsStay(r: Report, doc: Json, k: string)
    requires k != "status"
    ensures k in Fields(Stored(r, doc)) <==> k in Fields(doc)
    ensures Field(Stored(r, doc), k) == Field(doc, k)
  {
    if r.how.Patch? && k in Fields(doc) {
      var v := Fields(doc)[k];
      MergeSelfTwice(v);
      if v != Null {
        MergeNotNull(v, v);
      }
    }
  }

  lemma StatusHandlerSane()
    ensures Sane(StatusHandler)
  {
    forall r: Report, doc: Json
      ensures Timestamp(Stored(r, doc)) == r.timestamp
    {
      StoredTimestamp(r, doc);
    }
  }

  /** Under every interleaving of status writers the timestamps of the accepted writes of one
      cluster strictly increase. */
  lemma TimestampsStrictlyIncrease(ss: seq<Sys<Report, Json>>, steps: seq<Step<Report, Json>>, i: nat, j: nat)
    requires IsRun(StatusHandler, ss, steps)
    requires var log := ss[|steps|].log; i < j < |log| && log[i].uid == log[j].uid
    ensures var log := ss[|steps|].log;
            log[i].version.Some? && log[j].version.Some? && log[i].version.value < log[j].version.value
  {
    StatusHandlerSane();
    AcceptedWritesAdvance(StatusHandler, ss, steps);
  }

  /** PatchStatus fails on its first conflict, UpdateStatus on its fifth. */
  lemma OneTryForPatch(ss: seq<Sys<Report, Json>>, steps: seq<Step<Report, Json>>, n: nat, tid: nat)
    requires IsRun(StatusHandler, ss, steps) && n < |steps| && steps[n] == Act(tid) && Conflict(ss[n], tid, 0)
    ensures var failed := ss[n + 1].threads[tid].pc == Finished(Failed);
            if ss[n].threads[tid].report.how.Patch? then failed
            else failed <==> Conflicts(ss, steps, n + 1, tid, 0) == 5
  {
    StatusHandlerSane();
    RunBudget(StatusHandler, ss, steps, n, tid);
    ConflictEndsIff(StatusHandler, ss, steps, n, tid, 0);
  }

  /** An undisturbed writer stores its report if and only if that is newer than the stored one. */
  lemma WriterAlone(s: Sys<Report, Json>, tid: nat, n: nat)
    requires n == 3 && tid in s.threads && s.threads[tid].pc == Begin && s.threads[tid].key in s.store
    ensures var th, s' := s.threads[tid], ActN(StatusHandler, s, tid, n);
            var doc := s.store[th.key].value;
            && s'.store.Keys == s.store.Keys
            && s'.store[th.key].value == (if Timestamp(doc) < th.report.timestamp then Stored(th.report, doc) else doc)
            && (forall k :: k in s.store && k != th.key ==> s'.store[k] == s.store[k])
  {
    var h, th := StatusHandler, s.threads[tid];
    var doc := s.store[th.key].value;
    AloneFinishes(h, ActOn(h, s, tid), tid, n - 1);
    if h.accepts(th.report, doc) {
      var written := h.merge(th.report, doc, 0);
      assert Alone(h, th.report, doc, 0) == Alone(h, th.report, written, 1) == written == Stored(th.report, doc);
    }
  }

  /** An accepted patch of documents without null fields stores the merge itself, so a status field
      the report leaves out keeps its value; a replaced status has exactly the reported fields. */
  lemma PatchedStatus(doc: Json, r: Report, path: seq<string>)
    requires Clean(doc) && Clean(Status(r)) && doc.Obj?
    ensures r.how.Patch? ==> Stored(r, doc) == PatchBytes(doc, Status(r))
    ensures r.how.Patch? ==> Field(Stored(r, doc), "status") == Merge(Field(doc, "status"), Status(r))
    ensures r.how.Patch? && Omits(Status(r), path) ==>
              At(Field(Stored(r, doc), "status"), path) == At(Field(doc, "status"), path)
    ensures r.how.Replace? ==> Field(Stored(r, doc), "status") == Obj(r.rest["timestamp" := Num(r.timestamp)])
  {
    var latest := WithStatus(doc, Status(r));
    CleanIsStable(doc, latest);
    PatchTwiceIff(doc, latest);
    if Omits(Status(r), path) {
      OmittedSurvives(Field(doc, "status"), Status(r), path);
    }
  }
}
