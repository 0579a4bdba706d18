/** Reconciling pods into secrets (internal/controller/podsecret_controller.go). */
module Reconciler {
  import opened Wrappers
  import opened GoMaps

  const MANAGED_BY_LABEL := "app.kubernetes.io/managed-by"
  const MANAGED_BY_VALUE := "jasm"
  const SOURCE_PATH_ANNOTATION := "jasm.io/source-path"
  const SYNCED_AT_ANNOTATION := "jasm.io/synced-at"
  const OPAQUE_TYPE := "Opaque"

  datatype Key = Key(namespace: string, name: string)

  type Strings = map<string, string>

  /** The value of the pod's jasm.io/secret-sync annotation. */
  datatype Pod = Pod(annotation: Option<string>)

  datatype Secret = Secret(data: Strings, labels: Strings, annotations: Strings, secretType: string)

  datatype SyncRequest = SyncRequest(provider: string, secretPath: string, secretName: string, keyMapping: Strings)

  datatype Fetched = NoProvider | FetchFailed | Fetched(data: Strings)

  /** ParseAnnotation and the registered providers, as fixed functions. */
  datatype World = World(parse: string -> Option<SyncRequest>, fetch: (string, string) -> Fetched)

  datatype ReconcileResult = PodNotFound | NotAnnotated | InvalidAnnotation | ProviderNotFound | FetchError | ApiError | Synced {
    /** ctrl.Result.Requeue */
    predicate Requeue() {
      FetchError?
    }
  }

  /** API calls that fail for a reason other than NotFound. */
  datatype Faults = Faults(podGet: bool, secretGet: bool, write: bool)

  /** What a pod asks for, when everything it names is there. */
  datatype Desired = Desired(target: Key, path: string, data: Strings)

  /** The mapped data, or all of it without a mapping. */
  function Mapped(keyMapping: Strings, fetched: Strings): Strings {
    if keyMapping == map[] then fetched
    else map k | k in keyMapping && keyMapping[k] in fetched :: fetched[keyMapping[k]]
  }

  function Request(w: World, pod: Pod): Option<SyncRequest> {
    if pod.annotation.None? then None else w.parse(pod.annotation.value)
  }

  function DesiredOf(w: World, pods: map<Key, Pod>, pod: Key): Option<Desired> {
    if pod !in pods then None
    else
      match Request(w, pods[pod])
      case None => None
      case Some(r) =>
        match w.fetch(r.provider, r.secretPath)
        case Fetched(data) => Some(Desired(Key(pod.namespace, r.secretName), r.secretPath, Mapped(r.keyMapping, data)))
        case _ => None
  }

  /** The pod is there and has a valid annotation. */
  predicate HasRequest(w: World, pods: map<Key, Pod>, pod: Key) {
    pod in pods && pods[pod].annotation.Some? && w.parse(pods[pod].annotation.value).Some?
  }

  /** What the provider answers to the pod's request; NoProvider without a request. */
  function Fetches(w: World, pods: map<Key, Pod>, pod: Key): Fetched {
    if HasRequest(w, pods, pod) then
      var r := w.parse(pods[pod].annotation.value).value;
      w.fetch(r.provider, r.secretPath)
    else NoProvider
  }

  const EMPTY_SECRET := Secret(map[], map[], map[], "")

  /** The secret as stored: the API server overlays stringData onto the data there is. */
  function Stored(before: Option<Secret>, d: Desired, now: string): Secret {
    var prior := before.GetOr(EMPTY_SECRET);
    Secret(
      prior.data + d.data,
      prior.labels[MANAGED_BY_LABEL := MANAGED_BY_VALUE],
      prior.annotations[SOURCE_PATH_ANNOTATION := d.path][SYNCED_AT_ANNOTATION := now],
      OPAQUE_TYPE)
  }

  function SecretAt(secrets: map<Key, Secret>, k: Key): Option<Secret> {
    if k in secrets then Some(secrets[k]) else None
  }

  /** One reconcile without API faults. */
  function Reconciled(w: World, pods: map<Key, Pod>, secrets: map<Key, Secret>, pod: Key, now: string): map<Key, Secret> {
    match DesiredOf(w, pods, pod)
    case None => secrets
    case Some(d) => secrets[d.target := Stored(SecretAt(secrets, d.target), d, now)]
  }

  // ----- the controller -----

  class PodSecretReconciler {
    const w: World
    var pods: map<Key, Pod>
    var secrets: map<Key, Secret>

    constructor (w: World, pods: map<Key, Pod>, secrets: map<Key, Secret>)
      ensures this.w == w && this.pods == pods && this.secrets == secrets
    {
      this.w, this.pods, this.secrets := w, pods, secrets;
    }

    /** The loop over the key mapping, or over the data without one, in any order. */
    method BuildStringData(keyMapping: Strings, fetched: Strings, order: Strings -> seq<string>) returns (built: Strings)
      requires forall m :: Iterates(order(m), m)
      ensures built == Mapped(keyMapping, fetched)
    {
      built := map[];
      if keyMapping != map[] {
        var keys := order(keyMapping);
        for i := 0 to |keys|
          invariant forall k :: k in built <==> k in keys[..i] && keyMapping[k] in fetched
          invariant forall k :: k in built ==> built[k] == fetched[keyMapping[k]]
        {
          if keyMapping[keys[i]] in fetched {
            built := built[keys[i] := fetched[keyMapping[keys[i]]]];
          }
          assert keys[..i + 1] == keys[..i] + [keys[i]];
        }
        assert keys[..|keys|] == keys;
      } else {
        var keys := order(fetched);
        for i := 0 to |keys|
          invariant forall k :: k in built <==> k in keys[..i]
          invariant forall k :: k in built ==> built[k] == fetched[k]
        {
          built := built[keys[i] := fetched[keys[i]]];
          assert keys[..i + 1] == keys[..i] + [keys[i]];
        }
        assert keys[..|keys|] == keys;
      }
    }

    method Reconcile(req: Key, now: string, faults: Faults, order: Strings -> seq<string>) returns (r: ReconcileResult)
      requires forall m :: Iterates(order(m), m)
      modifies this`secrets
      ensures r == ApiError <==> faults.podGet || (Fetches(w, pods, req).Fetched? && (faults.secretGet || faults.write))
      ensures !faults.podGet ==>
                && (r == PodNotFound <==> req !in pods)
                && (r == NotAnnotated <==> req in pods && pods[req].annotation.None?)
                && (r == InvalidAnnotation <==>
                      req in pods && pods[req].annotation.Some? && w.parse(pods[req].annotation.value).None?)
                && (r == ProviderNotFound <==> HasRequest(w, pods, req) && Fetches(w, pods, req).NoProvider?)
                && (r == FetchError <==> HasRequest(w, pods, req) && Fetches(w, pods, req).FetchFailed?)
      ensures secrets == if r == Synced then Reconciled(w, pods, old(secrets), req, now) else old(secrets)
      ensures r.Requeue() <==> r == FetchError
    {
      if faults.podGet {
        return ApiError;
      }
      if req !in pods {
        return PodNotFound;
      }
      var pod := pods[req];
      if pod.annotation.None? {
        return NotAnnotated;
      }
      var parsed := w.parse(pod.annotation.value);
      if parsed.None? {
        return InvalidAnnotation;
      }
      var syncRequest := parsed.value;
      var fetched := w.fetch(syncRequest.provider, syncRequest.secretPath);
      if fetched.NoProvider? {
        return ProviderNotFound;
      }
      if fetched.FetchFailed? {
        return FetchError;
      }
      var target := Key(req.namespace, syncRequest.secretName);
      if faults.secretGet {
        return ApiError;
      }
      var secretExists := target in secrets;
      var secret := if secretExists then secrets[target] else EMPTY_SECRET;
      var stringData := BuildStringData(syncRequest.keyMapping, fetched.data, order);
      secret := secret.(labels := secret.labels[MANAGED_BY_LABEL := MANAGED_BY_VALUE]);
      secret := secret.(annotations := secret.annotations[SOURCE_PATH_ANNOTATION := syncRequest.secretPath]);
      secret := secret.(annotations := secret.annotations[SYNCED_AT_ANNOTATION := now]);
      secret := secret.(secretType := OPAQUE_TYPE);
      if faults.write {
        return ApiError;
      }
      secrets := secrets[target := secret.(data := secret.data + stringData)];
      return Synced;
    }

    /** The requests for a secret, in the order in which the API server lists the pods. */
    method FindPodsForSecret(name: Key, labels: Strings, listed: Option<seq<Key>>) returns (requests: seq<Key>)
      requires listed.Some? ==> Lists(listed.value, pods, name.namespace)
      ensures requests
           == if MANAGED_BY_LABEL in labels && labels[MANAGED_BY_LABEL] == "jasm" && listed.Some?
              then Requests(w, pods, listed.value, name.name)
              else []
    {
      if !Managed(labels) {
        return [];
      }
      if listed.None? {
        return [];
      }
      var podList := listed.value;
      requests := [];
      for i := 0 to |podList|
        invariant requests == Requests(w, pods, podList[..i], name.name)
      {
        assert podList[..i + 1][..i] == podList[..i];
        var pod := pods[podList[i]];
        if pod.annotation.None? {
          continue;
        }
        var syncRequest := w.parse(pod.annotation.value);
        if syncRequest.None? {
          continue;
        }
        if syncRequest.value.secretName == name.name {
          requests := requests + [podList[i]];
        }
      }
      assert podList[..|podList|] == podList;
    }
  }

  predicate Managed(labels: Strings) {
    MANAGED_BY_LABEL in labels && labels[MANAGED_BY_LABEL] == MANAGED_BY_VALUE
  }

  /** listed is an answer to listing the pods of a namespace. */
  ghost predicate Lists(listed: seq<Key>, pods: map<Key, Pod>, namespace: string) {
    && (forall i :: 0 <= i < |listed| ==> listed[i] in pods && listed[i].namespace == namespace)
    && (forall k :: k in pods && k.namespace == namespace ==> k in listed)
  }

  predicate Names(w: World, pods: map<Key, Pod>, pod: Key, secretName: string) {
    pod in pods && Request(w, pods[pod]).Some? && Request(w, pods[pod]).value.secretName == secretName
  }

  function Requests(w: World, pods: map<Key, Pod>, listed: seq<Key>, secretName: string): seq<Key> {
    if listed == [] then []
    else
      var last := listed[|listed| - 1];
      Requests(w, pods, listed[..|listed| - 1], secretName) + if Names(w, pods, last, secretName) then [last] else []
  }
}
