/** What sequences of reconciles lead to. */
module ReconcilerTheorems {
  import opened Wrappers
  import opened Reconciler

  /** A reconcile request and the time at which it is processed. */
  datatype Event = Event(pod: Key, now: string)

  function Run(w: World, pods: map<Key, Pod>, secrets: map<Key, Secret>, events: seq<Event>): map<Key, Secret> {
    if events == [] then secrets
    else
      var n := |events| - 1;
      Reconciled(w, pods, Run(w, pods, secrets, events[..n]), events[n].pod, events[n].now)
  }

  /** A secret without the time of its last sync. */
  function Timeless(s: Secret): Secret {
    s.(annotations := s.annotations - {SYNCED_AT_ANNOTATION})
  }

  /** Equal but for the times of the last syncs. */
  ghost predicate Same(a: map<Key, Secret>, b: map<Key, Secret>) {
    a.Keys == b.Keys && forall k :: k in a ==> Timeless(a[k]) == Timeless(b[k])
  }

  // ----- what one reconcile writes -----

  /** The request of a pod. */
  function RequestOf(w: World, pods: map<Key, Pod>, pod: Key): SyncRequest
    requires HasRequest(w, pods, pod)
  {
    w.parse(pods[pod].annotation.value).value
  }

  /**
   * A reconcile of a pod without a key mapping writes every fetched entry, and
   * one with a mapping writes k exactly when k is mapped to a fetched key, with
   * its value. All other entries, labels and annotations stay, and so do all
   * other secrets; without an answer of the provider nothing changes at all.
   */
  lemma ReconcileWrites(w: World, pods: map<Key, Pod>, secrets: map<Key, Secret>, pod: Key, now: string, x: string)
    ensures var after := Reconciled(w, pods, secrets, pod, now);
            if HasRequest(w, pods, pod) && Fetches(w, pods, pod).Fetched? then
              var r, data := RequestOf(w, pods, pod), Fetches(w, pods, pod).data;
              var target := Key(pod.namespace, r.secretName);
              var before := if target in secrets then secrets[target] else Secret(map[], map[], map[], "");
              var source := if r.keyMapping == map[] then x else if x in r.keyMapping then r.keyMapping[x] else "";
              var written := (r.keyMapping == map[] || x in r.keyMapping) && source in data;
              && after.Keys == secrets.Keys + {target}
              && (forall k :: k in secrets && k != target ==> after[k] == secrets[k])
              && (written ==> x in after[target].data && after[target].data[x] == data[source])
              && (!written ==> (x in after[target].data <==> x in before.data)
                               && (x in before.data ==> after[target].data[x] == before.data[x]))
              && after[target].labels == before.labels["app.kubernetes.io/managed-by" := "jasm"]
              && after[target].annotations
                 == before.annotations["jasm.io/source-path" := r.secretPath]["jasm.io/synced-at" := now]
              && after[target].secretType == "Opaque"
            else after == secrets
  {
  }

  // ----- two reconciles -----

  /** Reconciles of different secrets commute, to the last annotation. */
  lemma DifferentTargetsCommute(w: World, pods: map<Key, Pod>, secrets: map<Key, Secret>, e: Event, f: Event)
    requires DesiredOf(w, pods, e.pod).Some? && DesiredOf(w, pods, f.pod).Some? ==>
               DesiredOf(w, pods, e.pod).value.target != DesiredOf(w, pods, f.pod).value.target
    ensures Reconciled(w, pods, Reconciled(w, pods, secrets, e.pod, e.now), f.pod, f.now)
         == Reconciled(w, pods, Reconciled(w, pods, secrets, f.pod, f.now), e.pod, e.now)
  {
  }

  /** The two agree on every key that both supply, and name the same source. */
  ghost predicate Compatible(d: Desired, e: Desired) {
    d.path == e.path && forall k :: k in d.data && k in e.data ==> d.data[k] == e.data[k]
  }

  /** Two writes of one secret commute, the sync time aside, exactly when what they write is compatible. */
  lemma SameTargetCommutesIff(a: Option<Secret>, d: Desired, e: Desired, now: string, later: string)
    ensures Timeless(Stored(Some(Stored(a, d, now)), e, later)) == Timeless(Stored(Some(Stored(a, e, now)), d, later))
       <==> Compatible(d, e)
  {
    var x := a.GetOr(EMPTY_SECRET);
    var left, right := Stored(Some(Stored(a, d, now)), e, later), Stored(Some(Stored(a, e, now)), d, later);
    DataCommutesIff(x.data, d.data, e.data);
    assert left.data == x.data + d.data + e.data && right.data == x.data + e.data + d.data;
    PathsDistinct();
    assert Timeless(left).annotations[SOURCE_PATH_ANNOTATION] == e.path;
    assert Timeless(right).annotations[SOURCE_PATH_ANNOTATION] == d.path;
    if d.path == e.path {
      assert Timeless(left).annotations == Timeless(right).annotations;
    }
  }

  lemma PathsDistinct()
    ensures SOURCE_PATH_ANNOTATION != SYNCED_AT_ANNOTATION
  {
    assert SOURCE_PATH_ANNOTATION[9] != SYNCED_AT_ANNOTATION[9];
  }

  lemma DataCommutesIff(x: Strings, a: Strings, b: Strings)
    ensures x + a + b == x + b + a <==> forall k :: k in a && k in b ==> a[k] == b[k]
  {
    var left, right := x + a + b, x + b + a;
    if left == right {
      forall k | k in a && k in b
        ensures a[k] == b[k]
      {
        assert left[k] == b[k] && right[k] == a[k];
      }
    }
  }

  // ----- whole runs -----

  /** Pods that share a secret ask for the same thing. */
  ghost predicate Agreeing(w: World, pods: map<Key, Pod>) {
    forall p, q :: p in pods && q in pods && DesiredOf(w, pods, p).Some? && DesiredOf(w, pods, q).Some?
      && DesiredOf(w, pods, p).value.target == DesiredOf(w, pods, q).value.target
      ==> DesiredOf(w, pods, p) == DesiredOf(w, pods, q)
  }

  /** The same provider, path and key mapping is enough for that. */
  lemma SameRequestsAgree(w: World, pods: map<Key, Pod>)
    requires forall p, q :: p in pods && q in pods && p.namespace == q.namespace
               && Request(w, pods[p]).Some? && Request(w, pods[q]).Some?
               && Request(w, pods[p]).value.secretName == Request(w, pods[q]).value.secretName
               ==> Request(w, pods[p]) == Request(w, pods[q])
    ensures Agreeing(w, pods)
  {
  }

  ghost predicate Wants(w: World, pods: map<Key, Pod>, pod: Key, k: Key) {
    DesiredOf(w, pods, pod).Some? && DesiredOf(w, pods, pod).value.target == k
  }

  /** Pods that share a secret ask for compatible things. */
  ghost predicate AllCompatible(w: World, pods: map<Key, Pod>) {
    forall p, q, k :: Wants(w, pods, p, k) && Wants(w, pods, q, k)
      ==> Compatible(DesiredOf(w, pods, p).value, DesiredOf(w, pods, q).value)
  }

  /** The run handles a request of the pod. */
  ghost predicate Handles(events: seq<Event>, pod: Key) {
    exists i :: 0 <= i < |events| && events[i].pod == pod
  }

  ghost predicate SamePods(events: seq<Event>, others: seq<Event>) {
    forall p :: Handles(events, p) <==> Handles(others, p)
  }

  lemma HandlesMore(events: seq<Event>, p: Key)
    requires events != []
    ensures Handles(events, p) <==> Handles(events[..|events| - 1], p) || events[|events| - 1].pod == p
  {
    var n := |events| - 1;
    if i :| 0 <= i < n && events[..n][i].pod == p {
      assert events[i].pod == p;
    }
    if i :| 0 <= i < |events| && events[i].pod == p {
      assert i < n ==> events[..n][i].pod == p;
    }
  }

  /** A secret that no handled pod wants is not touched. */
  lemma {:induction false} UnwantedUntouched(w: World, pods: map<Key, Pod>, secrets: map<Key, Secret>, events: seq<Event>, k: Key)
    requires forall i :: 0 <= i < |events| ==> !Wants(w, pods, events[i].pod, k)
    ensures SecretAt(Run(w, pods, secrets, events), k) == SecretAt(secrets, k)
  {
    if events != [] {
      UnwantedUntouched(w, pods, secrets, events[..|events| - 1], k);
    }
  }

  /** A handled pod asks for an entry x of the secret. */
  ghost predicate Supplied(w: World, pods: map<Key, Pod>, events: seq<Event>, k: Key, x: string) {
    exists p :: Handles(events, p) && Wants(w, pods, p, k) && x in DesiredOf(w, pods, p).value.data
  }

  lemma SuppliedMore(w: World, pods: map<Key, Pod>, events: seq<Event>, k: Key, x: string)
    requires events != []
    ensures var last := events[|events| - 1].pod;
            Supplied(w, pods, events, k, x)
            <==> Supplied(w, pods, events[..|events| - 1], k, x)
                 || (Wants(w, pods, last, k) && x in DesiredOf(w, pods, last).value.data)
  {
    forall p
      ensures Handles(events, p) <==> Handles(events[..|events| - 1], p) || events[|events| - 1].pod == p
    {
      HandlesMore(events, p);
    }
    hide Handles, Wants, Reconciler.DesiredOf;
  }

  function DataAt(secrets: map<Key, Secret>, k: Key): Strings {
    SecretAt(secrets, k).GetOr(EMPTY_SECRET).data
  }

  lemma DataMore(w: World, pods: map<Key, Pod>, secrets: map<Key, Secret>, pod: Key, now: string, k: Key)
    ensures DataAt(Reconciled(w, pods, secrets, pod, now), k)
         == DataAt(secrets, k) + if Wants(w, pods, pod, k) then DesiredOf(w, pods, pod).value.data else map[]
  {
  }

  /** The keys of a secret after a run are those it had and those that handled pods ask for. */
  lemma {:induction false} RunKeys(w: World, pods: map<Key, Pod>, secrets: map<Key, Secret>, events: seq<Event>, k: Key, x: string)
    ensures x in DataAt(Run(w, pods, secrets, events), k)
       <==> x in DataAt(secrets, k) || Supplied(w, pods, events, k, x)
  {
    if events != [] {
      var n := |events| - 1;
      RunKeys(w, pods, secrets, events[..n], k, x);
      SuppliedMore(w, pods, events, k, x);
      DataMore(w, pods, Run(w, pods, secrets, events[..n]), events[n].pod, events[n].now, k);
      hide DataAt, Supplied, Wants, Reconciler.Reconciled, Reconciler.DesiredOf;
    }
  }

  /** When pods are compatible, a supplied entry has the value that any handled pod gives it, and others stay. */
  lemma {:induction false} RunValues(w: World, pods: map<Key, Pod>, secrets: map<Key, Secret>, events: seq<Event>, k: Key, x: string)
    requires AllCompatible(w, pods)
    ensures forall p :: Handles(events, p) && Wants(w, pods, p, k) && x in DesiredOf(w, pods, p).value.data ==>
              && x in DataAt(Run(w, pods, secrets, events), k)
              && DataAt(Run(w, pods, secrets, events), k)[x] == DesiredOf(w, pods, p).value.data[x]
    ensures !Supplied(w, pods, events, k, x) && x in DataAt(secrets, k) ==>
              && x in DataAt(Run(w, pods, secrets, events), k)
              && DataAt(Run(w, pods, secrets, events), k)[x] == DataAt(secrets, k)[x]
  {
    if events != [] {
      var n := |events| - 1;
      var last := events[n].pod;
      RunValues(w, pods, secrets, events[..n], k, x);
      SuppliedMore(w, pods, events, k, x);
      DataMore(w, pods, Run(w, pods, secrets, events[..n]), last, events[n].now, k);
      forall p | Handles(events, p) && Wants(w, pods, p, k) && x in DesiredOf(w, pods, p).value.data
        ensures x in DataAt(Run(w, pods, secrets, events), k)
        ensures DataAt(Run(w, pods, secrets, events), k)[x] == DesiredOf(w, pods, p).value.data[x]
      {
        HandlesMore(events, p);
        if Wants(w, pods, last, k) {
          assert Compatible(DesiredOf(w, pods, p).value, DesiredOf(w, pods, last).value);
        }
      }
    }
  }

  /** Everything but the data and the sync time. */
  function Marks(s: Secret): Secret {
    Timeless(s).(data := map[])
  }

  /** What a write does to the marks. */
  function Marked(s: Secret, path: string): Secret {
    Secret(map[], s.labels[MANAGED_BY_LABEL := MANAGED_BY_VALUE], s.annotations[SOURCE_PATH_ANNOTATION := path], OPAQUE_TYPE)
  }

  lemma StoredMarks(before: Option<Secret>, d: Desired, now: string)
    ensures Marks(Stored(before, d, now)) == Marked(Marks(before.GetOr(EMPTY_SECRET)), d.path)
  {
    var prior := before.GetOr(EMPTY_SECRET).annotations;
    PathsDistinct();
    assert prior[SOURCE_PATH_ANNOTATION := d.path][SYNCED_AT_ANNOTATION := now] - {SYNCED_AT_ANNOTATION}
        == (prior - {SYNCED_AT_ANNOTATION})[SOURCE_PATH_ANNOTATION := d.path];
  }

  lemma MarkedTwice(s: Secret, path: string)
    ensures Marked(Marked(s, path), path) == Marked(s, path)
  {
  }

  lemma TimelessByParts(a: Secret, b: Secret)
    requires Marks(a) == Marks(b) && a.data == b.data
    ensures Timeless(a) == Timeless(b)
  {
    assert Timeless(a) == Marks(a).(data := a.data) && Timeless(b) == Marks(b).(data := b.data);
  }

  /** A wanted secret has the marks of one write over the old secret. */
  lemma {:induction false} RunMarks(w: World, pods: map<Key, Pod>, secrets: map<Key, Secret>, events: seq<Event>, k: Key, pod: Key)
    requires AllCompatible(w, pods) && Handles(events, pod) && Wants(w, pods, pod, k)
    ensures k in Run(w, pods, secrets, events)
    ensures Marks(Run(w, pods, secrets, events)[k])
         == Marked(Marks(SecretAt(secrets, k).GetOr(EMPTY_SECRET)), DesiredOf(w, pods, pod).value.path)
  {
    var n := |events| - 1;
    var before, last := events[..n], events[n];
    HandlesMore(events, pod);
    var d := DesiredOf(w, pods, pod).value;
    var middle := Run(w, pods, secrets, before);
    if Wants(w, pods, last.pod, k) {
      assert Compatible(d, DesiredOf(w, pods, last.pod).value);
      StoredMarks(SecretAt(middle, k), DesiredOf(w, pods, last.pod).value, last.now);
      if p :| Handles(before, p) && Wants(w, pods, p, k) {
        assert Compatible(d, DesiredOf(w, pods, p).value);
        RunMarks(w, pods, secrets, before, k, p);
        MarkedTwice(Marks(SecretAt(secrets, k).GetOr(EMPTY_SECRET)), d.path);
      } else {
        forall i | 0 <= i < |before|
          ensures !Wants(w, pods, before[i].pod, k)
        {
          assert Handles(before, before[i].pod);
        }
        UnwantedUntouched(w, pods, secrets, before, k);
      }
    } else {
      RunMarks(w, pods, secrets, before, k, pod);
    }
  }

  /** A secret that handled pods want holds one write of what they want on top of what there was. */
  lemma WantedStored(w: World, pods: map<Key, Pod>, secrets: map<Key, Secret>, events: seq<Event>, k: Key, i: nat, now: string)
    requires Agreeing(w, pods) && i < |events| && Wants(w, pods, events[i].pod, k)
    ensures k in Run(w, pods, secrets, events)
    ensures Timeless(Run(w, pods, secrets, events)[k])
         == Timeless(Stored(SecretAt(secrets, k), DesiredOf(w, pods, events[i].pod).value, now))
  {
    AgreeingIsCompatible(w, pods);
    var pod := events[i].pod;
    assert Handles(events, pod);
    RunMarks(w, pods, secrets, events, k, pod);
    var d := DesiredOf(w, pods, pod).value;
    StoredMarks(SecretAt(secrets, k), d, now);
    var data, once := DataAt(Run(w, pods, secrets, events), k), DataAt(secrets, k) + d.data;
    forall x
      ensures x in data <==> x in once
      ensures x in data ==> data[x] == once[x]
    {
      RunKeys(w, pods, secrets, events, k, x);
      RunValues(w, pods, secrets, events, k, x);
      assert Supplied(w, pods, events, k, x) <==> x in d.data;
    }
    assert data == once;
    TimelessByParts(Run(w, pods, secrets, events)[k], Stored(SecretAt(secrets, k), d, now));
  }

  lemma AgreeingIsCompatible(w: World, pods: map<Key, Pod>)
    requires Agreeing(w, pods)
    ensures AllCompatible(w, pods)
  {
  }

  /**
   * When pods that share a secret are compatible, any two runs that handle the
   * same pods, in whatever order and however often, end in the same secrets, the
   * sync times aside.
   */
  lemma Confluence(w: World, pods: map<Key, Pod>, secrets: map<Key, Secret>, events: seq<Event>, others: seq<Event>)
    requires AllCompatible(w, pods) && SamePods(events, others)
    ensures Same(Run(w, pods, secrets, events), Run(w, pods, secrets, others))
  {
    var a, b := Run(w, pods, secrets, events), Run(w, pods, secrets, others);
    forall k
      ensures k in a <==> k in b
      ensures k in a ==> Timeless(a[k]) == Timeless(b[k])
    {
      SameSecret(w, pods, secrets, events, others, k);
    }
  }

  lemma SameSecret(w: World, pods: map<Key, Pod>, secrets: map<Key, Secret>, events: seq<Event>, others: seq<Event>, k: Key)
    requires AllCompatible(w, pods) && SamePods(events, others)
    ensures var a, b := Run(w, pods, secrets, events), Run(w, pods, secrets, others);
            (k in a <==> k in b) && (k in a ==> Timeless(a[k]) == Timeless(b[k]))
  {
    if p :| Handles(events, p) && Wants(w, pods, p, k) {
      RunMarks(w, pods, secrets, events, k, p);
      RunMarks(w, pods, secrets, others, k, p);
      SameData(w, pods, secrets, events, others, k);
      TimelessByParts(Run(w, pods, secrets, events)[k], Run(w, pods, secrets, others)[k]);
    } else {
      NotHandled(w, pods, events, k);
      NotHandled(w, pods, others, k);
      UnwantedUntouched(w, pods, secrets, events, k);
      UnwantedUntouched(w, pods, secrets, others, k);
    }
  }

  lemma NotHandled(w: World, pods: map<Key, Pod>, events: seq<Event>, k: Key)
    requires forall p :: Handles(events, p) ==> !Wants(w, pods, p, k)
    ensures forall i :: 0 <= i < |events| ==> !Wants(w, pods, events[i].pod, k)
  {
    forall i | 0 <= i < |events|
      ensures !Wants(w, pods, events[i].pod, k)
    {
      assert Handles(events, events[i].pod);
    }
  }

  lemma SameData(w: World, pods: map<Key, Pod>, secrets: map<Key, Secret>, events: seq<Event>, others: seq<Event>, k: Key)
    requires AllCompatible(w, pods) && SamePods(events, others)
    ensures DataAt(Run(w, pods, secrets, events), k) == DataAt(Run(w, pods, secrets, others), k)
  {
    var a, b := DataAt(Run(w, pods, secrets, events), k), DataAt(Run(w, pods, secrets, others), k);
    forall x
      ensures (x in a <==> x in b) && (x in a ==> a[x] == b[x])
    {
      RunKeys(w, pods, secrets, events, k, x);
      RunKeys(w, pods, secrets, others, k, x);
      RunValues(w, pods, secrets, events, k, x);
      RunValues(w, pods, secrets, others, k, x);
      assert Supplied(w, pods, events, k, x) <==> Supplied(w, pods, others, k, x);
    }
    assert a == b;
  }

  /** The order and the number of the reconciles never matters. */
  ghost predicate Confluent(w: World, pods: map<Key, Pod>) {
    forall secrets, events, others :: SamePods(events, others) ==>
      Same(Run(w, pods, secrets, events), Run(w, pods, secrets, others))
  }

  /**
   * Over all runs: the order of reconciles never matters if and only if the pods
   * that share a secret name one path and agree on the keys that they both ask for.
   */
  lemma ConfluentIff(w: World, pods: map<Key, Pod>)
    ensures Confluent(w, pods) <==> AllCompatible(w, pods)
  {
    if AllCompatible(w, pods) {
      forall secrets, events, others | SamePods(events, others)
        ensures Same(Run(w, pods, secrets, events), Run(w, pods, secrets, others))
      {
        Confluence(w, pods, secrets, events, others);
      }
    }
    if Confluent(w, pods) {
      forall p, q, k | Wants(w, pods, p, k) && Wants(w, pods, q, k)
        ensures Compatible(DesiredOf(w, pods, p).value, DesiredOf(w, pods, q).value)
      {
        TwoOrders(w, pods, p, q, k);
      }
    }
  }

  lemma SwappedPods(e: Event, f: Event)
    ensures SamePods([e, f], [f, e])
  {
    forall p
      ensures Handles([e, f], p) <==> Handles([f, e], p)
    {
      assert [e, f][0] == [f, e][1] && [e, f][1] == [f, e][0];
    }
  }

  lemma TwoOrders(w: World, pods: map<Key, Pod>, p: Key, q: Key, k: Key)
    requires Confluent(w, pods) && Wants(w, pods, p, k) && Wants(w, pods, q, k)
    ensures Compatible(DesiredOf(w, pods, p).value, DesiredOf(w, pods, q).value)
  {
    var one, two := [Event(p, ""), Event(q, "")], [Event(q, ""), Event(p, "")];
    SwappedPods(Event(p, ""), Event(q, ""));
    assert Same(Run(w, pods, map[], one), Run(w, pods, map[], two));
    RunTwo(w, pods, p, q, k);
    RunTwo(w, pods, q, p, k);
    SameTargetCommutesIff(None, DesiredOf(w, pods, p).value, DesiredOf(w, pods, q).value, "", "");
    hide Compatible, Confluent, Same, SamePods, Reconciler.Stored, Timeless, Run, Reconciler.DesiredOf;
    SameAtKey(Run(w, pods, map[], one), Run(w, pods, map[], two), k);
  }

  lemma SameAtKey(a: map<Key, Secret>, b: map<Key, Secret>, k: Key)
    requires Same(a, b) && k in a
    ensures k in b && Timeless(a[k]) == Timeless(b[k])
  {
  }

  lemma RunTwo(w: World, pods: map<Key, Pod>, p: Key, q: Key, k: Key)
    requires Wants(w, pods, p, k) && Wants(w, pods, q, k)
    ensures var after := Run(w, pods, map[], [Event(p, ""), Event(q, "")]);
            && k in after
            && after[k] == Stored(Some(Stored(None, DesiredOf(w, pods, p).value, "")), DesiredOf(w, pods, q).value, "")
  {
    var events := [Event(p, ""), Event(q, "")];
    assert events[..1] == [Event(p, "")] && events[..1][..0] == [];
    assert Run(w, pods, map[], events[..1]) == Reconciled(w, pods, map[], p, "");
  }

  // ----- repair after deletion -----

  /** Requests are a filter of the list: each pod that names the secret, once and in place. */
  lemma {:induction false} RequestsConcat(w: World, pods: map<Key, Pod>, a: seq<Key>, b: seq<Key>, secretName: string)
    ensures Requests(w, pods, a + b, secretName) == Requests(w, pods, a, secretName) + Requests(w, pods, b, secretName)
    ensures |b| == 1 ==> Requests(w, pods, b, secretName) == if Names(w, pods, b[0], secretName) then b else []
  {
    if b == [] {
      assert a + b == a;
    } else {
      var n := |b| - 1;
      assert (a + b)[..|a + b| - 1] == a + b[..n];
      RequestsConcat(w, pods, a, b[..n], secretName);
    }
  }

  lemma {:induction false} RequestsMembers(w: World, pods: map<Key, Pod>, listed: seq<Key>, secretName: string, pod: Key)
    ensures pod in Requests(w, pods, listed, secretName) <==> pod in listed && Names(w, pods, pod, secretName)
  {
    if listed != [] {
      var n := |listed| - 1;
      RequestsMembers(w, pods, listed[..n], secretName, pod);
      assert listed == listed[..n] + [listed[n]];
    }
  }

  /** The requests are exactly the pods of the secret's namespace whose valid annotation names it. */
  lemma RequestsAreThePods(w: World, pods: map<Key, Pod>, listed: seq<Key>, k: Key, pod: Key)
    requires Lists(listed, pods, k.namespace)
    ensures pod in Requests(w, pods, listed, k.name)
       <==> pod.namespace == k.namespace && HasRequest(w, pods, pod) && RequestOf(w, pods, pod).secretName == k.name
  {
    RequestsMembers(w, pods, listed, k.name, pod);
  }

  /** A pod wants a secret exactly when it is one of the secret's requests and its fetch succeeds. */
  lemma WantsIsRequested(w: World, pods: map<Key, Pod>, listed: seq<Key>, k: Key, pod: Key)
    requires Lists(listed, pods, k.namespace)
    ensures Wants(w, pods, pod, k) <==> pod in Requests(w, pods, listed, k.name) && DesiredOf(w, pods, pod).Some?
  {
    RequestsAreThePods(w, pods, listed, k, pod);
  }

  lemma {:induction false} RunLabels(w: World, pods: map<Key, Pod>, secrets: map<Key, Secret>, events: seq<Event>, k: Key)
    requires k in Run(w, pods, secrets, events) && k !in secrets
    ensures Managed(Run(w, pods, secrets, events)[k].labels) && Run(w, pods, secrets, events)[k].secretType == OPAQUE_TYPE
  {
    if events != [] {
      var n := |events| - 1;
      if k in Run(w, pods, secrets, events[..n]) {
        RunLabels(w, pods, secrets, events[..n], k);
      }
    }
  }

  lemma {:induction false} RunKeeps(w: World, pods: map<Key, Pod>, secrets: map<Key, Secret>, events: seq<Event>, k: Key, i: nat)
    requires i < |events| && Wants(w, pods, events[i].pod, k)
    ensures k in Run(w, pods, secrets, events)
  {
    var n := |events| - 1;
    if i < n {
      RunKeeps(w, pods, secrets, events[..n], k, i);
    }
  }

  /**
   * After a managed secret k is deleted, processing the requests for it, in any
   * order and with repetitions, brings it back as a managed secret exactly when
   * one of the requested pods can be fetched for, and touches no other secret.
   */
  lemma DeletionIsRepaired(w: World, pods: map<Key, Pod>, secrets: map<Key, Secret>, k: Key, listed: seq<Key>, events: seq<Event>)
    requires k !in secrets && Lists(listed, pods, k.namespace)
    requires forall p :: Handles(events, p) <==> p in Requests(w, pods, listed, k.name)
    ensures var repaired := Run(w, pods, secrets, events);
            && (k in repaired <==>
                  exists p :: p in Requests(w, pods, listed, k.name) && DesiredOf(w, pods, p).Some?)
            && (k in repaired ==> Managed(repaired[k].labels) && repaired[k].secretType == OPAQUE_TYPE)
            && forall other :: other != k ==> SecretAt(repaired, other) == SecretAt(secrets, other)
  {
    var repaired := Run(w, pods, secrets, events);
    forall i | 0 <= i < |events|
      ensures events[i].pod in Requests(w, pods, listed, k.name)
    {
      assert Handles(events, events[i].pod);
    }
    forall other | other != k
      ensures SecretAt(repaired, other) == SecretAt(secrets, other)
    {
      forall i | 0 <= i < |events|
        ensures !Wants(w, pods, events[i].pod, other)
      {
        RequestsAreThePods(w, pods, listed, k, events[i].pod);
      }
      UnwantedUntouched(w, pods, secrets, events, other);
    }
    if p :| p in Requests(w, pods, listed, k.name) && DesiredOf(w, pods, p).Some? {
      assert Handles(events, p);
      var i :| 0 <= i < |events| && events[i].pod == p;
      WantsIsRequested(w, pods, listed, k, p);
      RunKeeps(w, pods, secrets, events, k, i);
      RunLabels(w, pods, secrets, events, k);
    } else {
      forall i | 0 <= i < |events|
        ensures !Wants(w, pods, events[i].pod, k)
      {
        WantsIsRequested(w, pods, listed, k, events[i].pod);
      }
      UnwantedUntouched(w, pods, secrets, events, k);
    }
  }

  /**
   * When pods are compatible, the repaired secret holds exactly the entries that
   * the requested pods ask for; when they agree, exactly what any one of them asks for.
   */
  lemma RepairRestoresData(w: World, pods: map<Key, Pod>, secrets: map<Key, Secret>, k: Key, listed: seq<Key>, events: seq<Event>, p: Key)
    requires AllCompatible(w, pods) && k !in secrets && Lists(listed, pods, k.namespace)
    requires forall q :: Handles(events, q) <==> q in Requests(w, pods, listed, k.name)
    requires p in Requests(w, pods, listed, k.name) && DesiredOf(w, pods, p).Some?
    ensures var repaired := Run(w, pods, secrets, events);
            && k in repaired
            && (forall x :: x in DesiredOf(w, pods, p).value.data ==>
                  x in repaired[k].data && repaired[k].data[x] == DesiredOf(w, pods, p).value.data[x])
            && (forall x :: x in repaired[k].data ==> Supplied(w, pods, events, k, x))
            && (Agreeing(w, pods) ==> repaired[k].data == DesiredOf(w, pods, p).value.data)
  {
    WantsIsRequested(w, pods, listed, k, p);
    hide Reconciler.Lists, Reconciler.Requests, Run, Supplied, Handles, AllCompatible, Agreeing, Compatible;
    RunMarks(w, pods, secrets, events, k, p);
    FreshEntries(w, pods, secrets, events, k, p);
    if Agreeing(w, pods) {
      AgreedEntries(w, pods, events, k, p, Run(w, pods, secrets, events)[k].data);
    }
  }

  /** What a run puts into a secret that did not exist. */
  lemma FreshEntries(w: World, pods: map<Key, Pod>, secrets: map<Key, Secret>, events: seq<Event>, k: Key, p: Key)
    requires AllCompatible(w, pods) && k !in secrets && Handles(events, p) && Wants(w, pods, p, k)
    ensures var data, d := DataAt(Run(w, pods, secrets, events), k), DesiredOf(w, pods, p).value.data;
            && (forall x :: x in d ==> x in data && data[x] == d[x])
            && (forall x :: x in data ==> Supplied(w, pods, events, k, x))
  {
    forall x
      ensures var data, d := DataAt(Run(w, pods, secrets, events), k), DesiredOf(w, pods, p).value.data;
              && (x in d ==> x in data && data[x] == d[x])
              && (x in data ==> Supplied(w, pods, events, k, x))
    {
      RunKeys(w, pods, secrets, events, k, x);
      RunValues(w, pods, secrets, events, k, x);
      hide Run, Supplied, Handles, AllCompatible, Reconciler.DesiredOf;
    }
  }

  lemma AgreedEntries(w: World, pods: map<Key, Pod>, events: seq<Event>, k: Key, p: Key, data: Strings)
    requires Agreeing(w, pods) && Wants(w, pods, p, k)
    requires forall x :: x in DesiredOf(w, pods, p).value.data ==> x in data && data[x] == DesiredOf(w, pods, p).value.data[x]
    requires forall x :: x in data ==> Supplied(w, pods, events, k, x)
    ensures data == DesiredOf(w, pods, p).value.data
  {
    assert forall x :: x in data ==> x in DesiredOf(w, pods, p).value.data;
  }

  // ----- the key mapping -----

  /** The pod asks for the secret with the key mapping. */
  ghost predicate Maps(w: World, pods: map<Key, Pod>, pod: Key, keyMapping: Strings) {
    pod in pods && Request(w, pods[pod]).Some? && Request(w, pods[pod]).value.keyMapping == keyMapping
  }

  lemma SuppliedIsMapped(w: World, pods: map<Key, Pod>, events: seq<Event>, k: Key, keyMapping: Strings, x: string)
    requires keyMapping != map[] && Supplied(w, pods, events, k, x)
    requires forall p :: Handles(events, p) && Wants(w, pods, p, k) ==> Maps(w, pods, p, keyMapping)
    ensures x in keyMapping
  {
    var p :| Handles(events, p) && Wants(w, pods, p, k) && x in DesiredOf(w, pods, p).value.data;
  }

  /**
   * With a key mapping only the mapped keys are meant to be in the secret. Any
   * run of reconciles with that mapping achieves it if and only if the secret was
   * new or held only such keys before, because an update keeps the data that is
   * already there.
   */
  lemma OnlyMappedKeysIff(w: World, pods: map<Key, Pod>, secrets: map<Key, Secret>, events: seq<Event>, k: Key, keyMapping: Strings)
    requires keyMapping != map[]
    requires forall p :: Handles(events, p) && Wants(w, pods, p, k) ==> Maps(w, pods, p, keyMapping)
    ensures DataAt(Run(w, pods, secrets, events), k).Keys <= keyMapping.Keys <==> DataAt(secrets, k).Keys <= keyMapping.Keys
  {
    var before, after := DataAt(secrets, k), DataAt(Run(w, pods, secrets, events), k);
    forall x
      ensures x in after.Keys <==> x in before.Keys || Supplied(w, pods, events, k, x)
      ensures Supplied(w, pods, events, k, x) ==> x in keyMapping.Keys
    {
      RunKeys(w, pods, secrets, events, k, x);
      if Supplied(w, pods, events, k, x) {
        SuppliedIsMapped(w, pods, events, k, keyMapping, x);
      }
    }
  }

  /** For instance, a mapping of a to b updates a secret with an entry c, which stays. */
  lemma StaleKeyStays(annotation: string, now: string)
    ensures var w := World(_ => Some(SyncRequest("aws", "path", "s", map["a" := "b"])), (_, _) => Fetched(map["b" := "1"]));
            var pods := map[Key("n", "p") := Pod(Some(annotation))];
            var secrets := map[Key("n", "s") := Secret(map["c" := "0"], map[], map[], OPAQUE_TYPE)];
            var after := Reconciled(w, pods, secrets, Key("n", "p"), now);
            Key("n", "s") in after && after[Key("n", "s")].data == map["c" := "0", "a" := "1"]
  {
    var mapped := Mapped(map["a" := "b"], map["b" := "1"]);
    assert "a" in mapped && "c" !in mapped;
    assert mapped == map["a" := "1"];
  }
}
