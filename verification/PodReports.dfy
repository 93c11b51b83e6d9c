/** Pod reports: what the edge collects between two flushes, and what the centre does with it. */
module PodReports {

  import opened Options
  import opened Naming
  import P = PodReplica

  /** A reported pod under its edge key; `terminating` is a set deletion timestamp. */
  datatype Report = Report(key: Naming.Key, terminating: bool, pod: P.Pod)

  /** The body of one report message. */
  datatype Batch = Batch(updates: map<Naming.Key, Report>, deletes: map<Naming.Key, Report>, full: seq<Naming.Key>)

  const EMPTY: Batch := Batch(map[], map[], [])

  datatype Event = Updated(r: Report) | Deleted(r: Report)

  // ----- The edge -----

  /** SetUpdateMap and SetDelMap. An update does not take back an earlier delete. */
  function Record(b: Batch, e: Event): Batch {
    match e
    case Updated(r) => b.(updates := b.updates[r.key := r])
    case Deleted(r) => b.(updates := b.updates - {r.key}, deletes := b.deletes[r.key := r])
  }

  function Window(es: seq<Event>): Batch {
    if es == [] then EMPTY else Record(Window(es[..|es| - 1]), es[|es| - 1])
  }

  /** The last event of a key in a window. */
  function Last(es: seq<Event>, k: Naming.Key): Option<Event> {
    if es == [] then None
    else if es[|es| - 1].r.key == k then Some(es[|es| - 1])
    else Last(es[..|es| - 1], k)
  }

  predicate HasDelete(es: seq<Event>, k: Naming.Key) {
    exists e :: e in es && e.Deleted? && e.r.key == k
  }

  /** Over any window a key is to be updated exactly if its last event is an update, with that
      update, and to be deleted exactly if it was deleted at all. */
  lemma {:induction false} WindowHolds(es: seq<Event>, k: Naming.Key)
    ensures k in Window(es).updates <==> Last(es, k).Some? && Last(es, k).value.Updated?
    ensures k in Window(es).updates ==> Window(es).updates[k] == Last(es, k).value.r
    ensures k in Window(es).deletes <==> HasDelete(es, k)
    ensures k in Window(es).deletes ==> Window(es).deletes[k].key == k
    ensures Window(es).full == []
  {
    if es != [] {
      var n := |es| - 1;
      WindowHolds(es[..n], k);
      assert es == es[..n] + [es[n]];
    }
  }

  lemma {:induction false} WindowHasNoList(es: seq<Event>)
    ensures Window(es).full == []
  {
    if es != [] {
      WindowHasNoList(es[..|es| - 1]);
    }
  }

  lemma WindowIsEmptyIff(es: seq<Event>)
    ensures Window(es) == EMPTY <==> es == []
  {
    if es != [] {
      var last := es[|es| - 1];
      assert last.r.key in Window(es).updates || last.r.key in Window(es).deletes;
    }
  }

  class PodReporter {
    var updates: map<Naming.Key, Report>
    var deletes: map<Naming.Key, Report>
    var full: seq<Naming.Key>

    constructor ()
      ensures Pending() == EMPTY
    {
      updates, deletes, full := map[], map[], [];
    }

    function Pending(): Batch
      reads this
    {
      Batch(updates, deletes, full)
    }

    method SetUpdateMap(r: Report)
      modifies this
      ensures Pending() == Record(old(Pending()), Updated(r))
    {
      updates := updates[r.key := r];
    }

    method SetDelMap(r: Report)
      modifies this
      ensures Pending() == Record(old(Pending()), Deleted(r))
    {
      if r.key in updates {
        updates := updates - {r.key};
      }
      deletes := deletes[r.key := r];
    }

    method SetFullListMap(list: seq<Naming.Key>)
      modifies this
      ensures Pending() == old(Pending()).(full := list)
    {
      full := list;
    }

    /** A flush sends everything pending and starts over; nothing is sent if nothing is pending. */
    method Flush() returns (msg: Option<Batch>)
      modifies this
      ensures Pending() == EMPTY
      ensures msg == if old(Pending()) == EMPTY then None else Some(old(Pending()))
    {
      if |updates| == 0 && |deletes| == 0 && |full| == 0 {
        return None;
      }
      msg := Some(Pending());
      deletes, updates, full := map[], map[], [];
    }

    /** Recording the events of a window one by one leaves its batch pending. */
    method Collect(es: seq<Event>)
      requires Pending() == EMPTY
      modifies this
      ensures Pending() == Window(es)
    {
      for i := 0 to |es|
        invariant Pending() == Window(es[..i])
      {
        assert es[..i + 1][..i] == es[..i];
        match es[i] {
          case Updated(r) => SetUpdateMap(r);
          case Deleted(r) => SetDelMap(r);
        }
      }
      assert es[..|es|] == es;
    }

    /** The first report after a start: the events of its window, and the keys of all pods as soon
        as the informer has synced. A cluster without pods, and without events yet, sends nothing. */
    method FirstReport(es: seq<Event>, list: seq<Naming.Key>) returns (msg: Option<Batch>)
      requires Pending() == EMPTY
      modifies this
      ensures Pending() == EMPTY
      ensures msg == if es == [] && list == [] then None else Some(Window(es).(full := list))
    {
      Collect(es);
      SetFullListMap(list);
      WindowIsEmptyIff(es);
      WindowHasNoList(es);
      msg := Flush();
    }
  }

  // ----- The centre -----

  type Pods = map<Naming.Key, P.Pod>

  function At(pods: Pods, k: Naming.Key): Option<P.Pod> {
    if k in pods then Some(pods[k]) else None
  }

  function ClusterOf(pod: P.Pod): string {
    P.Label(pod.labels, P.CLUSTER_LABEL)
  }

  /** The label selector for a cluster. */
  predicate Labelled(pod: P.Pod, cluster: string) {
    P.CLUSTER_LABEL in pod.labels && pod.labels[P.CLUSTER_LABEL] == cluster
  }

  function CentralKey(r: Report): Naming.Key {
    Unique(r.key, ClusterOf(r.pod))
  }

  /** CreateOrUpdatePod on one central pod, run by itself: a terminating pod is deleted. */
  function Upserted(o: Option<P.Pod>, r: Report): Option<P.Pod> {
    if r.terminating then None
    else match o
         case Some(v) => Some(P.Update(r.pod, v))
         case None => Some(P.Created(r.pod))
  }

  function Set(pods: Pods, k: Naming.Key, o: Option<P.Pod>): Pods {
    match o
    case Some(v) => pods[k := v]
    case None => pods - {k}
  }

  /** One reported update; a pod without cluster label is skipped. */
  function Upsert(pods: Pods, r: Report): Pods {
    if ClusterOf(r.pod) == "" then pods
    else Set(pods, CentralKey(r), Upserted(At(pods, CentralKey(r)), r))
  }

  function Remove(pods: Pods, r: Report): Pods {
    if ClusterOf(r.pod) == "" then pods else pods - {CentralKey(r)}
  }

  function UpsertSeq(pods: Pods, rs: map<Naming.Key, Report>, order: seq<Naming.Key>): Pods
    requires forall k :: k in order ==> k in rs
    decreases order
  {
    if order == [] then pods
    else Upsert(UpsertSeq(pods, rs, order[..|order| - 1]), rs[order[|order| - 1]])
  }

  function RemoveSeq(pods: Pods, rs: map<Naming.Key, Report>, order: seq<Naming.Key>): Pods
    requires forall k :: k in order ==> k in rs
    decreases order
  {
    if order == [] then pods
    else Remove(RemoveSeq(pods, rs, order[..|order| - 1]), rs[order[|order| - 1]])
  }

  /** `order` visits every key of the map once. */
  ghost predicate Visits(order: seq<Naming.Key>, rs: map<Naming.Key, Report>) {
    && (forall k :: k in order <==> k in rs)
    && (forall i, j :: 0 <= i < j < |order| ==> order[i] != order[j])
  }

  ghost function Image(list: seq<Naming.Key>, cluster: string): set<Naming.Key> {
    set k | k in list :: Unique(k, cluster)
  }

  /** Full-list reconciliation: exactly the cluster's own pods that are not listed go. */
  ghost function Reconciled(pods: Pods, cluster: string, list: seq<Naming.Key>): Pods {
    map k | k in pods && (Labelled(pods[k], cluster) ==> k in Image(list, cluster)) :: pods[k]
  }

  class Centre {
    var pods: Pods

    /** Pods go only if they carry the cluster's label and are not the image of a listed one. All
        others, with another label or without one, stay as they were. */
    method HandlePodFullList(cluster: string, fullList: seq<Naming.Key>)
      modifies this
      ensures pods == Reconciled(old(pods), cluster, fullList)
      ensures forall ck :: ck in old(pods) && !Labelled(old(pods)[ck], cluster) ==> ck in pods
      ensures forall ck :: ck in old(pods) && Labelled(old(pods)[ck], cluster) ==>
                             (ck in pods <==> exists k :: k in fullList && ck == Unique(k, cluster))
      ensures forall ck :: ck in pods ==> ck in old(pods) && pods[ck] == old(pods)[ck]
    {
      var edgePods: set<Naming.Key> := {};
      for i := 0 to |fullList|
        invariant edgePods == Image(fullList[..i], cluster)
      {
        edgePods := edgePods + {Unique(fullList[i], cluster)};
        assert fullList[..i + 1] == fullList[..i] + [fullList[i]];
      }
      assert fullList[..|fullList|] == fullList;
      ghost var was := pods;
      var rest := set k | k in pods && Labelled(pods[k], cluster);
      while rest != {}
        invariant rest <= pods.Keys
        invariant forall k :: k in rest ==> k in was && Labelled(was[k], cluster)
        invariant pods == map k | k in was && (Labelled(was[k], cluster) && k !in rest ==> k in edgePods) :: was[k]
        decreases rest
      {
        var k :| k in rest;
        rest := rest - {k};
        if k !in edgePods {
          pods := pods - {k};
        }
      }
    }

    method HandlePodUpdateMap(rs: map<Naming.Key, Report>) returns (ghost order: seq<Naming.Key>)
      modifies this
      ensures Visits(order, rs) && pods == UpsertSeq(old(pods), rs, order)
    {
      order := [];
      var rest := rs.Keys;
      while rest != {}
        invariant rest <= rs.Keys
        invariant forall k :: k in order <==> k in rs && k !in rest
        invariant forall i, j :: 0 <= i < j < |order| ==> order[i] != order[j]
        invariant pods == UpsertSeq(old(pods), rs, order)
        decreases rest
      {
        var k :| k in rest;
        rest := rest - {k};
        assert (order + [k])[..|order|] == order;
        order := order + [k];
        var r := rs[k];
        if ClusterOf(r.pod) != "" {
          var ck := CentralKey(r);
          pods := Set(pods, ck, Upserted(At(pods, ck), r));
        }
      }
    }

    method HandlePodDelMap(rs: map<Naming.Key, Report>) returns (ghost order: seq<Naming.Key>)
      modifies this
      ensures Visits(order, rs) && pods == RemoveSeq(old(pods), rs, order)
    {
      order := [];
      var rest := rs.Keys;
      while rest != {}
        invariant rest <= rs.Keys
        invariant forall k :: k in order <==> k in rs && k !in rest
        invariant forall i, j :: 0 <= i < j < |order| ==> order[i] != order[j]
        invariant pods == RemoveSeq(old(pods), rs, order)
        decreases rest
      {
        var k :| k in rest;
        rest := rest - {k};
        assert (order + [k])[..|order|] == order;
        order := order + [k];
        var r := rs[k];
        if ClusterOf(r.pod) != "" {
          pods := pods - {CentralKey(r)};
        }
      }
    }

    /** The full list first, if there is one, then the updates, then the deletes. */
    method HandlePodReport(cluster: string, b: Batch)
      modifies this
      ensures IsFlush(Start(old(pods), cluster, b), b, pods)
    {
      if |b.full| != 0 {
        HandlePodFullList(cluster, b.full);
      }
      ghost var updates := HandlePodUpdateMap(b.updates);
      ghost var deletes := HandlePodDelMap(b.deletes);
    }
  }

  // ----- One flush against the event stream -----

  function ApplyEvent(pods: Pods, e: Event): Pods {
    match e
    case Updated(r) => Upsert(pods, r)
    case Deleted(r) => Remove(pods, r)
  }

  /** The centre when every event is applied as it happens. */
  function Streamed(pods: Pods, es: seq<Event>): Pods {
    if es == [] then pods else ApplyEvent(Streamed(pods, es[..|es| - 1]), es[|es| - 1])
  }

  /** The same for one pod. */
  function StreamedPod(o: Option<P.Pod>, es: seq<Event>, k: Naming.Key): Option<P.Pod> {
    if es == [] then o
    else
      var e := es[|es| - 1];
      var before := StreamedPod(o, es[..|es| - 1], k);
      if e.r.key != k then before
      else match e
           case Updated(r) => Upserted(before, r)
           case Deleted(_) => None
  }

  /** One pod after a flush: its update, then its delete. */
  function FlushedPod(o: Option<P.Pod>, b: Batch, k: Naming.Key): Option<P.Pod> {
    if k in b.deletes then None
    else if k in b.updates then Upserted(o, b.updates[k])
    else o
  }

  /** Two successive versions of one pod, as an informer delivers them: the version does not
      decrease, and a terminating pod stays terminating. */
  predicate Follows(r: Report, r': Report) {
    && P.Version(r.pod.labels).Some? && P.Version(r'.pod.labels).Some?
    && P.Version(r.pod.labels).value <= P.Version(r'.pod.labels).value
    && (r.terminating ==> r'.terminating)
  }

  /** Successive updates of a key, without a delete between them, are versions of one pod. */
  predicate InOrder(es: seq<Event>, k: Naming.Key) {
    es == [] ||
    var n := |es| - 1;
    var last := Last(es[..n], k);
    && InOrder(es[..n], k)
    && (es[n].Updated? && es[n].r.key == k && last.Some? && last.value.Updated? ==> Follows(last.value.r, es[n].r))
  }

  /** The key was deleted in the window and then came back alive. */
  predicate Resurrected(es: seq<Event>, k: Naming.Key) {
    HasDelete(es, k) && Last(es, k).Some? && Last(es, k).value.Updated? && !Last(es, k).value.r.terminating
  }

  /** The first event of a key in a window. */
  function First(es: seq<Event>, k: Naming.Key): Option<Event> {
    if es == [] then None
    else
      var early := First(es[..|es| - 1], k);
      if early.Some? then early else if es[|es| - 1].r.key == k then Some(es[|es| - 1]) else None
  }

  /** The key has no pod at the centre, and between its first and last update in the window a part
      of the spec has changed that the centre never updates, such as the node of the pod. */
  predicate Respecced(o: Option<P.Pod>, es: seq<Event>, k: Naming.Key) {
    && o.None? && !HasDelete(es, k)
    && Last(es, k).Some? && !Last(es, k).value.r.terminating
    && First(es, k).Some? && First(es, k).value.r.pod.spec.fixed != Last(es, k).value.r.pod.spec.fixed
  }

  /** The pod a report leaves with another part of the spec that the centre never updates. */
  function Refixed(r: Report, fixed: string): P.Pod {
    var pod := P.Created(r.pod);
    pod.(spec := pod.spec.(fixed := fixed))
  }

  lemma MergeFollows(v: P.Pod, r: Report, r': Report)
    requires Follows(r, r') && !r.terminating
    ensures Upserted(Upserted(Some(v), r), r') == Upserted(Some(v), r')
  {
  }

  lemma RefixedFollows(r: Report, r': Report, fixed: string)
    requires Follows(r, r') && !r.terminating && !r'.terminating
    ensures Upserted(Some(Refixed(r, fixed)), r') == Some(Refixed(r', fixed))
  {
  }

  lemma {:induction false} LastDecides(o: Option<P.Pod>, es: seq<Event>, k: Naming.Key)
    ensures Last(es, k).None? ==> StreamedPod(o, es, k) == o && !HasDelete(es, k)
    ensures Last(es, k).Some? ==>
              var e := Last(es, k).value;
              && (StreamedPod(o, es, k).Some? <==> e.Updated? && !e.r.terminating)
              && (e.Deleted? ==> HasDelete(es, k))
  {
    if es != [] {
      var n := |es| - 1;
      LastDecides(o, es[..n], k);
      assert es == es[..n] + [es[n]];
    }
  }

  lemma FirstIff(es: seq<Event>, k: Naming.Key)
    ensures First(es, k).Some? <==> Last(es, k).Some?
  {
  }

  /** Without deletes only the last update of a pod counts, if the centre has the pod; a new pod
      keeps the fixed part of its first update. */
  lemma {:induction false} LastUpdateCounts(o: Option<P.Pod>, es: seq<Event>, k: Naming.Key)
    requires InOrder(es, k) && !HasDelete(es, k)
    requires Last(es, k).Some? && Last(es, k).value.Updated? && !Last(es, k).value.r.terminating
    ensures First(es, k).Some?
    ensures StreamedPod(o, es, k) ==
            if o.Some? then Upserted(o, Last(es, k).value.r)
            else Some(Refixed(Last(es, k).value.r, First(es, k).value.r.pod.spec.fixed))
  {
    var n := |es| - 1;
    var early := es[..n];
    assert es == early + [es[n]];
    assert !HasDelete(early, k);
    FirstIff(early, k);
    if es[n].r.key != k {
      LastUpdateCounts(o, early, k);
    } else {
      LastDecides(o, early, k);
      if Last(early, k).Some? {
        LastIsThere(early, k);
        LastUpdateCounts(o, early, k);
        StreamStep(o, early, es[n].r, k);
      }
    }
  }

  lemma StreamStep(o: Option<P.Pod>, early: seq<Event>, r': Report, k: Naming.Key)
    requires Last(early, k).Some? && Last(early, k).value.Updated? && First(early, k).Some?
    requires Follows(Last(early, k).value.r, r') && !Last(early, k).value.r.terminating && !r'.terminating
    requires var r := Last(early, k).value.r;
             StreamedPod(o, early, k) ==
             if o.Some? then Upserted(o, r) else Some(Refixed(r, First(early, k).value.r.pod.spec.fixed))
    ensures Upserted(StreamedPod(o, early, k), r') ==
            if o.Some? then Upserted(o, r') else Some(Refixed(r', First(early, k).value.r.pod.spec.fixed))
  {
    var r := Last(early, k).value.r;
    if o.Some? {
      MergeFollows(o.value, r, r');
    } else {
      RefixedFollows(r, r', First(early, k).value.r.pod.spec.fixed);
    }
  }

  lemma {:induction false} LastIsThere(es: seq<Event>, k: Naming.Key)
    requires Last(es, k).Some?
    ensures Last(es, k).value in es && Last(es, k).value.r.key == k
  {
    if es[|es| - 1].r.key != k {
      LastIsThere(es[..|es| - 1], k);
    }
  }

  /** For one pod, a flush gives what the events give one by one if and only if the pod was not
      deleted and brought back, nor created and then changed where the centre does not follow. */
  lemma PodFlushIff(o: Option<P.Pod>, es: seq<Event>, k: Naming.Key)
    requires InOrder(es, k)
    ensures FlushedPod(o, Window(es), k) == StreamedPod(o, es, k) <==>
            !Resurrected(es, k) && !Respecced(o, es, k)
  {
    WindowHolds(es, k);
    LastDecides(o, es, k);
    if Last(es, k).Some? && Last(es, k).value.Updated? && !Last(es, k).value.r.terminating && !HasDelete(es, k) {
      LastUpdateCounts(o, es, k);
    }
  }

  /** A pod created and then scheduled between two flushes: the centre gets its node from the
      flush, but not from the events one by one. */
  lemma ScheduledPodDiffers(created: Report, scheduled: Report)
    requires created.key == scheduled.key && Follows(created, scheduled) && !scheduled.terminating
    requires created.pod.spec.fixed != scheduled.pod.spec.fixed
    ensures var es := [Updated(created), Updated(scheduled)];
            && InOrder(es, created.key) && !Resurrected(es, created.key)
            && FlushedPod(None, Window(es), created.key) != StreamedPod(None, es, created.key)
  {
    var es := [Updated(created), Updated(scheduled)];
    assert es[..1] == [Updated(created)] && [Updated(created)][..0] == [];
    assert First(es[..1], created.key) == Some(Updated(created));
    assert InOrder(es[..1], created.key);
    PodFlushIff(None, es, created.key);
  }

  /** A pod deleted and recreated between two flushes: the centre ends up without it. */
  lemma RecreatedPodIsLost(o: Option<P.Pod>, gone: Report, back: Report)
    requires gone.key == back.key && !back.terminating
    ensures var es := [Deleted(gone), Updated(back)];
            && StreamedPod(o, es, back.key) == Some(P.Created(back.pod))
            && FlushedPod(o, Window(es), back.key) == None
  {
    var es := [Deleted(gone), Updated(back)];
    assert es[..1] == [Deleted(gone)] && [Deleted(gone)][..0] == [];
    assert StreamedPod(o, [Deleted(gone)], back.key) == None;
    WindowHolds(es, back.key);
    assert es[0] in es;
  }

  /** Updates that are not successive versions of one pod: the centre keeps the newer one when
      they come one by one, and gets the older one when they are flushed together. */
  lemma StaleUpdateWins(newer: Report, older: Report)
    requires newer.key == older.key && !newer.terminating && !older.terminating
    requires !P.CheckEdgeVersion(older.pod.labels, newer.pod.labels)
    ensures var es := [Updated(newer), Updated(older)];
            && StreamedPod(None, es, older.key) == Some(P.Created(newer.pod))
            && FlushedPod(None, Window(es), older.key) == Some(P.Created(older.pod))
  {
    var es := [Updated(newer), Updated(older)];
    assert es[..1] == [Updated(newer)] && [Updated(newer)][..0] == [];
    assert StreamedPod(None, [Updated(newer)], older.key) == Some(P.Created(newer.pod));
    WindowHolds(es, older.key);
  }

  // ----- The whole centre -----

  /** The reports carry their own keys and the label of this cluster. */
  ghost predicate Ours(rs: map<Naming.Key, Report>, cluster: string) {
    cluster != "" && forall k :: k in rs ==> rs[k].key == k && ClusterOf(rs[k].pod) == cluster
  }

  ghost predicate OurEvents(es: seq<Event>, cluster: string) {
    cluster != "" && forall e :: e in es ==> ClusterOf(e.r.pod) == cluster
  }

  lemma UniqueOne(k: Naming.Key, l: Naming.Key, cluster: string)
    requires Unique(k, cluster) == Unique(l, cluster)
    ensures k == l
  {
    SameLength(k, cluster, l, cluster);
  }

  /** One of the reports is about the central pod; one without cluster label is about none. */
  ghost predicate About(rs: map<Naming.Key, Report>, ck: Naming.Key) {
    exists k :: k in rs && ClusterOf(rs[k].pod) != "" && CentralKey(rs[k]) == ck
  }

  lemma {:induction false} UpsertSeqElsewhere(
    pods: Pods, rs: map<Naming.Key, Report>, order: seq<Naming.Key>, ck: Naming.Key)
    requires (forall k :: k in order ==> k in rs) && !About(rs, ck)
    ensures At(UpsertSeq(pods, rs, order), ck) == At(pods, ck)
    decreases order
  {
    if order != [] {
      UpsertSeqElsewhere(pods, rs, order[..|order| - 1], ck);
      assert order[|order| - 1] in order;
    }
  }

  lemma {:induction false} RemoveSeqElsewhere(
    pods: Pods, rs: map<Naming.Key, Report>, order: seq<Naming.Key>, ck: Naming.Key)
    requires (forall k :: k in order ==> k in rs) && !About(rs, ck)
    ensures At(RemoveSeq(pods, rs, order), ck) == At(pods, ck)
    decreases order
  {
    if order != [] {
      RemoveSeqElsewhere(pods, rs, order[..|order| - 1], ck);
      assert order[|order| - 1] in order;
    }
  }

  lemma {:induction false} UpsertSeqAt(
    pods: Pods, rs: map<Naming.Key, Report>, order: seq<Naming.Key>, cluster: string, k: Naming.Key)
    requires Ours(rs, cluster) && forall j :: j in order ==> j in rs
    requires forall i, j :: 0 <= i < j < |order| ==> order[i] != order[j]
    ensures var ck := Unique(k, cluster);
            At(UpsertSeq(pods, rs, order), ck) == if k in order then Upserted(At(pods, ck), rs[k]) else At(pods, ck)
    decreases order
  {
    if order != [] {
      var n := |order| - 1;
      assert order == order[..n] + [order[n]];
      UpsertSeqAt(pods, rs, order[..n], cluster, k);
      if Unique(order[n], cluster) == Unique(k, cluster) {
        UniqueOne(order[n], k, cluster);
      }
    }
  }

  lemma {:induction false} RemoveSeqAt(
    pods: Pods, rs: map<Naming.Key, Report>, order: seq<Naming.Key>, cluster: string, ck: Naming.Key)
    requires Ours(rs, cluster) && forall k :: k in order ==> k in rs
    ensures At(RemoveSeq(pods, rs, order), ck) ==
            if exists k :: k in order && Unique(k, cluster) == ck then None else At(pods, ck)
    decreases order
  {
    if order != [] {
      var n := |order| - 1;
      assert order == order[..n] + [order[n]];
      RemoveSeqAt(pods, rs, order[..n], cluster, ck);
    }
  }

  /** The centre after a report without a full list, whatever order its maps are visited in. */
  ghost predicate IsFlush(pods: Pods, b: Batch, pods': Pods) {
    exists updates, deletes :: Visits(updates, b.updates) && Visits(deletes, b.deletes) &&
                               pods' == RemoveSeq(UpsertSeq(pods, b.updates, updates), b.deletes, deletes)
  }

  lemma FlushAt(pods: Pods, cluster: string, b: Batch, pods': Pods, k: Naming.Key)
    requires Ours(b.updates, cluster) && Ours(b.deletes, cluster) && IsFlush(pods, b, pods')
    ensures At(pods', Unique(k, cluster)) == FlushedPod(At(pods, Unique(k, cluster)), b, k)
  {
    var updates, deletes :| Visits(updates, b.updates) && Visits(deletes, b.deletes) &&
                            pods' == RemoveSeq(UpsertSeq(pods, b.updates, updates), b.deletes, deletes);
    var ck := Unique(k, cluster);
    var mid := UpsertSeq(pods, b.updates, updates);
    RemoveSeqAt(mid, b.deletes, deletes, cluster, ck);
    UpsertSeqAt(pods, b.updates, updates, cluster, k);
    forall j | Unique(j, cluster) == ck
      ensures j == k
    {
      UniqueOne(j, k, cluster);
    }
  }

  /** A flush leaves every central key alone that nothing in it is about. */
  lemma FlushUntouched(pods: Pods, b: Batch, pods': Pods, ck: Naming.Key)
    requires IsFlush(pods, b, pods') && !About(b.updates, ck) && !About(b.deletes, ck)
    ensures At(pods', ck) == At(pods, ck)
  {
    var updates, deletes :| Visits(updates, b.updates) && Visits(deletes, b.deletes) &&
                            pods' == RemoveSeq(UpsertSeq(pods, b.updates, updates), b.deletes, deletes);
    UpsertSeqElsewhere(pods, b.updates, updates, ck);
    RemoveSeqElsewhere(UpsertSeq(pods, b.updates, updates), b.deletes, deletes, ck);
  }

  /** What a report of one cluster is about has a central key of that cluster. */
  lemma AboutOurs(rs: map<Naming.Key, Report>, cluster: string, ck: Naming.Key)
    requires Ours(rs, cluster)
    ensures About(rs, ck) <==> exists k :: k in rs && ck == Unique(k, cluster)
  {
    if About(rs, ck) {
      var k :| k in rs && ClusterOf(rs[k].pod) != "" && CentralKey(rs[k]) == ck;
      assert ck == Unique(k, cluster);
    }
    if k :| k in rs && ck == Unique(k, cluster) {
      assert ClusterOf(rs[k].pod) != "" && CentralKey(rs[k]) == ck;
    }
  }

  /** A flush leaves every central key alone that is not one of this cluster. */
  lemma FlushElsewhere(pods: Pods, cluster: string, b: Batch, pods': Pods, ck: Naming.Key)
    requires Ours(b.updates, cluster) && Ours(b.deletes, cluster) && IsFlush(pods, b, pods')
    requires forall k :: Unique(k, cluster) != ck
    ensures At(pods', ck) == At(pods, ck)
  {
    AboutOurs(b.updates, cluster, ck);
    AboutOurs(b.deletes, cluster, ck);
    FlushUntouched(pods, b, pods', ck);
  }

  lemma {:induction false} StreamedAt(pods: Pods, es: seq<Event>, cluster: string, k: Naming.Key)
    requires OurEvents(es, cluster)
    ensures At(Streamed(pods, es), Unique(k, cluster)) == StreamedPod(At(pods, Unique(k, cluster)), es, k)
  {
    if es != [] {
      var n := |es| - 1;
      StreamedAt(pods, es[..n], cluster, k);
      assert es[n] in es;
      if CentralKey(es[n].r) == Unique(k, cluster) {
        UniqueOne(es[n].r.key, k, cluster);
      }
    }
  }

  lemma {:induction false} StreamedElsewhere(pods: Pods, es: seq<Event>, cluster: string, ck: Naming.Key)
    requires OurEvents(es, cluster) && forall k :: Unique(k, cluster) != ck
    ensures At(Streamed(pods, es), ck) == At(pods, ck)
  {
    if es != [] {
      var n := |es| - 1;
      StreamedElsewhere(pods, es[..n], cluster, ck);
      assert es[n] in es;
    }
  }

  lemma {:induction false} WindowIsOurs(es: seq<Event>, cluster: string)
    requires OurEvents(es, cluster)
    ensures Ours(Window(es).updates, cluster) && Ours(Window(es).deletes, cluster)
  {
    if es != [] {
      WindowIsOurs(es[..|es| - 1], cluster);
      assert es[|es| - 1] in es;
    }
  }

  lemma SamePods(p: Pods, q: Pods)
    requires forall k :: At(p, k) == At(q, k)
    ensures p == q
  {
    forall k
      ensures k in p <==> k in q
      ensures k in p && k in q ==> p[k] == q[k]
    {
      assert At(p, k) == At(q, k);
    }
  }

  /** One key of the window is lost or differs by being flushed. */
  ghost predicate Differs(pods: Pods, cluster: string, es: seq<Event>, k: Naming.Key) {
    Resurrected(es, k) || Respecced(At(pods, Unique(k, cluster)), es, k)
  }

  /** For the whole centre: flushing a window gives what its events give one by one if and only
      if no key was deleted and brought back within the window, and none was created and then
      changed where the centre does not follow. */
  lemma FlushRefinesStreamIff(pods: Pods, cluster: string, es: seq<Event>, pods': Pods)
    requires OurEvents(es, cluster) && forall k :: InOrder(es, k)
    requires IsFlush(pods, Window(es), pods')
    ensures pods' == Streamed(pods, es) <==> forall k :: !Differs(pods, cluster, es, k)
  {
    WindowIsOurs(es, cluster);
    var b := Window(es);
    forall k
      ensures At(pods', Unique(k, cluster)) == At(Streamed(pods, es), Unique(k, cluster)) <==>
              !Differs(pods, cluster, es, k)
    {
      FlushAt(pods, cluster, b, pods', k);
      StreamedAt(pods, es, cluster, k);
      PodFlushIff(At(pods, Unique(k, cluster)), es, k);
    }
    if forall k :: !Differs(pods, cluster, es, k) {
      forall ck
        ensures At(pods', ck) == At(Streamed(pods, es), ck)
      {
        if k :| Unique(k, cluster) == ck {
          assert !Differs(pods, cluster, es, k);
        } else {
          FlushElsewhere(pods, cluster, b, pods', ck);
          StreamedElsewhere(pods, es, cluster, ck);
        }
      }
      SamePods(pods', Streamed(pods, es));
    }
  }

  // ----- Other clusters, and full synchronisation -----

  /** Every central pod is stored under a key of the cluster it is labelled with. */
  ghost predicate OwnKeys(pods: Pods) {
    forall ck :: ck in pods ==> exists k :: ck == Unique(k, ClusterOf(pods[ck]))
  }

  /** A report of one cluster never touches a pod of another whose keys it cannot produce. */
  lemma OtherClustersUntouched(pods: Pods, cluster: string, b: Batch, pods': Pods, ck: Naming.Key)
    requires OwnKeys(pods) && Ours(b.updates, cluster) && Ours(b.deletes, cluster)
    requires IsFlush(Start(pods, cluster, b), b, pods')
    requires ck in pods && ClusterOf(pods[ck]) != cluster && !CanCollide(cluster, ClusterOf(pods[ck]))
    ensures ck in pods' && pods'[ck] == pods[ck]
  {
    var start := Start(pods, cluster, b);
    var d := ClusterOf(pods[ck]);
    var l :| ck == Unique(l, d);
    CollideIff(cluster, d);
    forall k
      ensures Unique(k, cluster) != ck
    {
      if Unique(k, cluster) == ck {
        SameKey(k, cluster, l, d);
      }
    }
    FlushElsewhere(start, cluster, b, pods', ck);
    assert At(pods', ck) == At(start, ck) == Some(pods[ck]);
  }

  /** For any report and any centre: a pod that does not carry the cluster's label is changed, made
      or removed only if an update or a delete is about it. */
  lemma UnlabelledUntouched(pods: Pods, cluster: string, b: Batch, pods': Pods, ck: Naming.Key)
    requires IsFlush(Start(pods, cluster, b), b, pods') && !About(b.updates, ck) && !About(b.deletes, ck)
    requires ck in pods ==> !Labelled(pods[ck], cluster)
    ensures At(pods', ck) == At(pods, ck)
  {
    FlushUntouched(Start(pods, cluster, b), b, pods', ck);
  }

  /** The report leaves the pod alive. */
  predicate Brings(b: Batch, k: Naming.Key) {
    k in b.updates && !b.updates[k].terminating && k !in b.deletes
  }

  predicate Takes(b: Batch, k: Naming.Key) {
    k in b.deletes || (k in b.updates && b.updates[k].terminating)
  }

  /** What the centre holds under the keys that the report brings is labelled with the cluster. */
  ghost predicate OwnLabels(pods: Pods, cluster: string, b: Batch) {
    forall k :: Brings(b, k) && Unique(k, cluster) in pods ==> Labelled(pods[Unique(k, cluster)], cluster)
  }

  ghost function Start(pods: Pods, cluster: string, b: Batch): Pods {
    if b.full == [] then pods else Reconciled(pods, cluster, b.full)
  }

  /** A pod with the cluster's label that the full list does not remove. */
  ghost predicate Kept(pods: Pods, cluster: string, b: Batch, ck: Naming.Key) {
    ck in pods && Labelled(pods[ck], cluster) && (b.full == [] || ck in Image(b.full, cluster))
  }

  /** For any report, whatever list, updates and deletes it has: the pods with the cluster's label
      afterwards are those it brings, and those that were there, are listed unless the list is
      empty, and are not taken. */
  lemma ReportLeaves(pods: Pods, cluster: string, b: Batch, pods': Pods, ck: Naming.Key)
    requires Ours(b.updates, cluster) && Ours(b.deletes, cluster) && OwnLabels(pods, cluster, b)
    requires IsFlush(Start(pods, cluster, b), b, pods')
    ensures ck in pods' && Labelled(pods'[ck], cluster) <==>
            || (exists k :: Unique(k, cluster) == ck && Brings(b, k))
            || (Kept(pods, cluster, b, ck) && forall k :: Unique(k, cluster) == ck ==> !Takes(b, k))
  {
    var start := Start(pods, cluster, b);
    if k :| Unique(k, cluster) == ck {
      FlushAt(start, cluster, b, pods', k);
      forall j | Unique(j, cluster) == ck
        ensures j == k
      {
        UniqueOne(j, k, cluster);
      }
      LabelledAfter(start, pods, cluster, b, k);
    } else {
      FlushElsewhere(start, cluster, b, pods', ck);
    }
  }

  lemma LabelledAfter(start: Pods, pods: Pods, cluster: string, b: Batch, k: Naming.Key)
    requires Ours(b.updates, cluster) && OwnLabels(pods, cluster, b) && start == Start(pods, cluster, b)
    ensures var ck := Unique(k, cluster);
            var o := FlushedPod(At(start, ck), b, k);
            o.Some? && Labelled(o.value, cluster) <==> Brings(b, k) || (Kept(pods, cluster, b, ck) && !Takes(b, k))
  {
    var ck := Unique(k, cluster);
    if Brings(b, k) {
      var r := b.updates[k];
      assert ClusterOf(r.pod) == cluster && Labelled(r.pod, cluster);
      assert At(start, ck).Some? ==> Labelled(At(start, ck).value, cluster);
    }
  }

  ghost predicate Brought(b: Batch, cluster: string, ck: Naming.Key) {
    exists k :: Unique(k, cluster) == ck && Brings(b, k)
  }

  ghost predicate Taken(b: Batch, cluster: string, ck: Naming.Key) {
    exists k :: Unique(k, cluster) == ck && Takes(b, k)
  }

  /** The pods with the cluster's label are exactly those that the report brings. */
  ghost predicate Synchronised(pods': Pods, cluster: string, b: Batch) {
    forall ck :: ck in pods' && Labelled(pods'[ck], cluster) <==> Brought(b, cluster, ck)
  }

  /** Any report leaves the cluster's pods exactly those it brings if and only if it brings or takes
      every one that its list does not remove. */
  lemma FullReportSynchronisesIff(pods: Pods, cluster: string, b: Batch, pods': Pods)
    requires Ours(b.updates, cluster) && Ours(b.deletes, cluster) && OwnLabels(pods, cluster, b)
    requires IsFlush(Start(pods, cluster, b), b, pods')
    ensures Synchronised(pods', cluster, b) <==>
            forall ck :: Kept(pods, cluster, b, ck) ==> Brought(b, cluster, ck) || Taken(b, cluster, ck)
  {
    forall ck
      ensures ck in pods' && Labelled(pods'[ck], cluster) <==>
              Brought(b, cluster, ck) || (Kept(pods, cluster, b, ck) && !Taken(b, cluster, ck))
    {
      ReportLeaves(pods, cluster, b, pods', ck);
    }
  }

  /** So does a report with a list, if it brings or takes every pod on the list. */
  lemma FullReportSynchronises(pods: Pods, cluster: string, b: Batch, pods': Pods)
    requires Ours(b.updates, cluster) && Ours(b.deletes, cluster) && OwnLabels(pods, cluster, b)
    requires b.full != [] && forall k :: k in b.full ==> Brings(b, k) || Takes(b, k)
    requires IsFlush(Start(pods, cluster, b), b, pods')
    ensures Synchronised(pods', cluster, b)
  {
    FullReportSynchronisesIff(pods, cluster, b, pods');
    forall ck | Kept(pods, cluster, b, ck)
      ensures Brought(b, cluster, ck) || Taken(b, cluster, ck)
    {
      var k :| k in b.full && ck == Unique(k, cluster);
      assert Brings(b, k) || Takes(b, k);
    }
  }

  /** Each pod that a report brings is created as reported but for the service account, or merged:
      an older report changes nothing, any other one everything but the fixed part of the spec. */
  lemma BroughtPods(pods: Pods, cluster: string, b: Batch, pods': Pods, k: Naming.Key)
    requires Ours(b.updates, cluster) && Ours(b.deletes, cluster) && Brings(b, k)
    requires b.full == [] || k in b.full
    requires IsFlush(Start(pods, cluster, b), b, pods')
    ensures var r, ck := b.updates[k].pod, Unique(k, cluster);
            && ck in pods'
            && (ck !in pods ==> pods'[ck] == r.(spec := r.spec.(serviceAccount := "")))
            && (ck in pods && !P.CheckEdgeVersion(r.labels, pods[ck].labels) ==> pods'[ck] == pods[ck])
            && (ck in pods && P.CheckEdgeVersion(r.labels, pods[ck].labels) ==>
                  && pods'[ck].labels == r.labels && pods'[ck].status == r.status
                  && pods'[ck].spec == r.spec.(fixed := pods[ck].spec.fixed,
                                       serviceAccount := pods[ck].spec.serviceAccount))
  {
    FlushAt(Start(pods, cluster, b), cluster, b, pods', k);
    assert b.full != [] ==> Unique(k, cluster) in Image(b.full, cluster);
  }

  /** A window without a list leaves a pod alone that it does not mention, also if the pod is long
      gone at the edge. */
  lemma WindowKeepsStale(pods: Pods, cluster: string, b: Batch, pods': Pods, stale: Naming.Key)
    requires Ours(b.updates, cluster) && Ours(b.deletes, cluster) && b.full == []
    requires stale !in b.updates && stale !in b.deletes
    requires Unique(stale, cluster) in pods && Labelled(pods[Unique(stale, cluster)], cluster)
    requires IsFlush(pods, b, pods')
    ensures At(pods', Unique(stale, cluster)) == At(pods, Unique(stale, cluster)) && !Synchronised(pods', cluster, b)
  {
    var ck := Unique(stale, cluster);
    FlushAt(pods, cluster, b, pods', stale);
    forall k | Unique(k, cluster) == ck
      ensures k == stale
    {
      UniqueOne(k, stale, cluster);
    }
    assert !Brought(b, cluster, ck);
  }
}
