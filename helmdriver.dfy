/**
 * The Helm package driver: install-or-upgrade reconciliation, idempotent
 * uninstall and drift detection for one package release, together with the
 * decision rules they are built from (namespace resolution, secret overlay,
 * retained revision history, image-pull-secret back-fill, chart URL schemes).
 *
 * Everything the driver delegates (Helm's chart loader and release actions,
 * the authenticator's secret and config-map calls) is represented by its
 * observable effect on the cluster state held in `HelmDriver` and by explicit
 * outcome parameters, so every contract holds for every collaborator answer.
 */
module Driver {
  import opened Wrappers
  import opened Values

  /** Revisions Helm keeps per release after an upgrade (`varHelmUpgradeMaxHistory`). */
  const MAX_HISTORY: nat := 2

  /** Chart value naming the namespace a chart wants when the caller gives none. */
  const DEFAULT_NAMESPACE_KEY: string := "defaultNamespace"

  /** Namespace used when neither the caller nor the chart names one. */
  const FALLBACK_NAMESPACE: string := "default"

  /** Values key the authenticator injects and drift detection back-fills. */
  const PULL_SECRETS_KEY: string := "imagePullSecrets"

  /** URL schemes a chart reference may carry. */
  const CHART_URL_SCHEMES: seq<string> := ["https://", "http://", "oci://"]

  // ---------------------------------------------------------------------------
  // Chart URL schemes
  // ---------------------------------------------------------------------------

  /** Go's `strings.HasPrefix`. */
  predicate HasPrefix(s: string, prefix: string)
  {
    |prefix| <= |s| && s[..|prefix|] == prefix
  }

  /** `helmChartURLIsPrefixed`: the URL starts with one of the accepted schemes. */
  predicate ChartUrlIsPrefixed(url: string)
  {
    HasPrefix(url, "https://") || HasPrefix(url, "http://") || HasPrefix(url, "oci://")
  }

  /** A URL is prefixed exactly when it splits into an accepted scheme and a remainder. */
  lemma ChartUrlIsPrefixedIffScheme(url: string)
    ensures ChartUrlIsPrefixed(url) <==>
            exists scheme, rest :: scheme in CHART_URL_SCHEMES && url == scheme + rest
  {
    if ChartUrlIsPrefixed(url) {
      var scheme := if HasPrefix(url, "https://") then "https://"
                    else if HasPrefix(url, "http://") then "http://"
                    else "oci://";
      assert url == scheme + url[|scheme|..];
    }
  }

  // ---------------------------------------------------------------------------
  // Namespace resolution
  // ---------------------------------------------------------------------------

  /**
   * The chart's `defaultNamespace` is read with a type assertion to string,
   * which panics on any other value; callers only reach it with an empty
   * namespace.
   */
  predicate DefaultNamespaceIsString(namespace: string, chart: Config)
  {
    namespace == "" && DEFAULT_NAMESPACE_KEY in chart ==> chart[DEFAULT_NAMESPACE_KEY].Str?
  }

  /**
   * The namespace Install works in: the caller's, else the chart's declared
   * default, else "default".
   */
  function ResolveNamespace(namespace: string, chart: Config): (ns: string)
    requires DefaultNamespaceIsString(namespace, chart)
    ensures namespace != "" ==> ns == namespace
    ensures namespace == "" && DEFAULT_NAMESPACE_KEY in chart ==> ns == chart[DEFAULT_NAMESPACE_KEY].s
    ensures namespace == "" && DEFAULT_NAMESPACE_KEY !in chart ==> ns == FALLBACK_NAMESPACE
    ensures ns == "" <==> namespace == "" && DEFAULT_NAMESPACE_KEY in chart && chart[DEFAULT_NAMESPACE_KEY] == Str("")
  {
    if namespace != "" then namespace
    else if DEFAULT_NAMESPACE_KEY in chart then chart[DEFAULT_NAMESPACE_KEY].s
    else FALLBACK_NAMESPACE
  }

  /**
   * Resolution is settled after one step: a non-empty result resolves to
   * itself under any chart, and a non-empty caller namespace makes the chart
   * irrelevant.
   */
  lemma ResolveNamespaceIsSettled(namespace: string, chart: Config, other: Config)
    requires DefaultNamespaceIsString(namespace, chart)
    requires ResolveNamespace(namespace, chart) != ""
    ensures ResolveNamespace(ResolveNamespace(namespace, chart), other) == ResolveNamespace(namespace, chart)
    ensures namespace != "" ==> ResolveNamespace(namespace, other) == ResolveNamespace(namespace, chart)
  {
  }

  // ---------------------------------------------------------------------------
  // Secret overlay
  // ---------------------------------------------------------------------------

  /** The caller's values with every authenticator-supplied key written over them. */
  function Overlaid(values: Config, secrets: Config): (r: Config)
    ensures r.Keys == values.Keys + secrets.Keys
    ensures forall k :: k in secrets ==> r[k] == secrets[k]
    ensures forall k :: k in values && k !in secrets ==> r[k] == values[k]
  {
    values + secrets
  }

  /** The values Install hands to Helm: overlaid when the secret lookup succeeded, untouched otherwise. */
  function MergedValues(values: Config, secrets: Option<Config>): Config
  {
    if secrets.Some? then Overlaid(values, secrets.value) else values
  }

  /** Overlaying the same secrets twice changes nothing more than overlaying once. */
  lemma OverlaidIsIdempotent(values: Config, secrets: Config)
    ensures Overlaid(Overlaid(values, secrets), secrets) == Overlaid(values, secrets)
  {
  }

  /**
   * The `for key, val := range secretvals { values[key] = val }` loop: writes
   * each returned key into the caller's map, in whatever order the range
   * visits them.
   */
  method OverlaySecrets(values: ValueMap, secrets: Config)
    modifies values
    ensures values.entries == Overlaid(old(values.entries), secrets)
  {
    var pending := secrets.Keys;
    while pending != {}
      invariant pending <= secrets.Keys
      invariant values.entries.Keys == old(values.entries).Keys + (secrets.Keys - pending)
      invariant forall k :: k in secrets.Keys - pending ==> values.entries[k] == secrets[k]
      invariant forall k :: k in old(values.entries) && k !in secrets.Keys - pending ==>
                  values.entries[k] == old(values.entries)[k]
      decreases pending
    {
      var key :| key in pending;
      values.Set(key, secrets[key]);
      pending := pending - {key};
    }
  }

  // ---------------------------------------------------------------------------
  // Releases and their retained revision history
  // ---------------------------------------------------------------------------

  /**
   * A release in Helm's store: the namespace it was installed with, the values
   * of its current revision, and the values of each retained revision, oldest
   * first.
   */
  datatype Release = Release(namespace: string, config: Config, history: seq<Config>)
  {
    /** The current revision is the newest retained one. */
    predicate WellFormed()
    {
      history != [] && history[|history| - 1] == config
    }
  }

  /**
   * The revisions an upgrade with `MaxHistory = MAX_HISTORY` leaves: the new
   * one appended, then the oldest pruned until at most MAX_HISTORY remain.
   */
  function Retained(history: seq<Config>, config: Config): (h: seq<Config>)
    ensures |h| == if |history| + 1 <= MAX_HISTORY then |history| + 1 else MAX_HISTORY
    ensures h[|h| - 1] == config
    ensures h == (history + [config])[|history| + 1 - |h|..]
  {
    var all := history + [config];
    if |all| <= MAX_HISTORY then all else all[|all| - MAX_HISTORY..]
  }

  /** The history left by upgrading a release through `configs`, one upgrade per element. */
  function UpgradedHistory(history: seq<Config>, configs: seq<Config>): seq<Config>
  {
    if configs == [] then history
    else Retained(UpgradedHistory(history, configs[..|configs| - 1]), configs[|configs| - 1])
  }

  /** An upgrade of a release that already has a revision retains exactly the previous and the new one. */
  lemma RetainedAfterRevision(history: seq<Config>, config: Config)
    requires history != []
    ensures Retained(history, config) == [history[|history| - 1], config]
  {
    var all := history + [config];
    var h := Retained(history, config);
    assert |h| == 2;
    assert h == all[|all| - 2..];
    assert h[0] == all[|all| - 2] == history[|history| - 1];
    assert h[1] == all[|all| - 1] == config;
  }

  /** `h` is the newest `|h|` elements of `xs`. */
  predicate IsSuffix(h: seq<Config>, xs: seq<Config>)
  {
    |h| <= |xs| && h == xs[|xs| - |h|..]
  }

  /** Upgrading a suffix of `xs` with `x` retains a suffix of `xs + [x]`. */
  lemma RetainedOfSuffix(before: seq<Config>, xs: seq<Config>, x: Config)
    requires IsSuffix(before, xs)
    ensures IsSuffix(Retained(before, x), xs + [x])
  {
    var all := xs + [x];
    if before == [] {
      assert Retained(before, x) == [x] == all[|all| - 1..];
    } else {
      RetainedAfterRevision(before, x);
      assert before[|before| - 1] == xs[|xs| - 1];
      var newest := all[|all| - 2..];
      assert |newest| == 2 && newest[0] == xs[|xs| - 1] && newest[1] == x;
    }
  }

  /** The newest `j` elements of `front + back` all come from `back` when it has `j` of them. */
  lemma SuffixWithinBack(front: seq<Config>, back: seq<Config>, j: nat)
    requires j <= |back|
    ensures (front + back)[|front| + |back| - j..] == back[|back| - j..]
  {
    var lhs := (front + back)[|front| + |back| - j..];
    assert |lhs| == j;
    assert forall i :: 0 <= i < j ==> lhs[i] == back[|back| - j + i];
  }

  /**
   * However many upgrades run, the history holds min(old length + upgrades,
   * MAX_HISTORY) revisions; with a cap of two this follows from the last two
   * upgrades alone.
   */
  lemma UpgradedHistoryLength(history: seq<Config>, configs: seq<Config>)
    requires configs != []
    ensures |UpgradedHistory(history, configs)| ==
              if |history| + |configs| <= MAX_HISTORY then |history| + |configs| else MAX_HISTORY
  {
  }

  /** However many upgrades run, the history is the newest part of the old history followed by the upgrades' values. */
  lemma {:induction false} UpgradedHistoryIsSuffix(history: seq<Config>, configs: seq<Config>)
    ensures IsSuffix(UpgradedHistory(history, configs), history + configs)
  {
    if configs == [] {
      assert history + configs == history;
    } else {
      var prefix := configs[..|configs| - 1];
      var last := configs[|configs| - 1];
      assert history + configs == (history + prefix) + [last] by {
        assert configs == prefix + [last];
      }
      UpgradedHistoryIsSuffix(history, prefix);
      RetainedOfSuffix(UpgradedHistory(history, prefix), history + prefix, last);
    }
  }

  /**
   * However many upgrades run, at most MAX_HISTORY revisions remain and the
   * newest is the latest values; after at least MAX_HISTORY upgrades that all
   * succeed, exactly the newest MAX_HISTORY configurations remain, whatever
   * the history started as. (Helm never prunes the last deployed revision, so
   * after a failed upgrade the older of the two kept revisions can differ.)
   */
  lemma UpgradesRetainNewest(history: seq<Config>, configs: seq<Config>)
    requires configs != []
    ensures |UpgradedHistory(history, configs)| <= MAX_HISTORY
    ensures UpgradedHistory(history, configs)[|UpgradedHistory(history, configs)| - 1] == configs[|configs| - 1]
    ensures |configs| >= MAX_HISTORY ==>
              UpgradedHistory(history, configs) == configs[|configs| - MAX_HISTORY..]
  {
    UpgradedHistoryLength(history, configs);
    UpgradedHistoryIsSuffix(history, configs);
    if |configs| >= MAX_HISTORY {
      SuffixWithinBack(history, configs, MAX_HISTORY);
    }
  }

  /** Helm's create: a first revision holding the install values. */
  function Created(namespace: string, config: Config): Release
  {
    Release(namespace, config, [config])
  }

  /**
   * The values Helm's upgrade stores when neither resetting nor reusing values
   * is requested: the given values, except that an empty set of values keeps
   * the current release's values.
   */
  function UpgradeValues(current: Config, newValues: Config): (v: Config)
    ensures newValues != map[] ==> v == newValues
    ensures newValues == map[] ==> v == current
    ensures v == map[] <==> current == map[] && newValues == map[]
  {
    if newValues == map[] && current != map[] then current else newValues
  }

  /** Helm's upgrade: the upgrade's values, namespace kept, history capped. */
  function Upgraded(rel: Release, config: Config): Release
  {
    var stored := UpgradeValues(rel.config, config);
    Release(rel.namespace, stored, Retained(rel.history, stored))
  }

  // ---------------------------------------------------------------------------
  // Drift detection
  // ---------------------------------------------------------------------------

  /**
   * The candidate values after IsConfigChanged's adjustment: when the caller
   * does not supply `imagePullSecrets` and the stored release has it, the
   * stored value is copied in.
   */
  function Backfilled(values: Config, stored: Config): (r: Config)
    ensures r.Keys == values.Keys + (stored.Keys * {PULL_SECRETS_KEY})
    ensures forall k :: k in values ==> r[k] == values[k]
    ensures PULL_SECRETS_KEY !in values && PULL_SECRETS_KEY in stored ==>
              r[PULL_SECRETS_KEY] == stored[PULL_SECRETS_KEY]
  {
    if PULL_SECRETS_KEY !in values && PULL_SECRETS_KEY in stored
    then values[PULL_SECRETS_KEY := stored[PULL_SECRETS_KEY]]
    else values
  }

  /** The drift verdict: the adjusted candidate differs from the stored values. */
  predicate ConfigChanged(values: Config, stored: Config)
  {
    Backfilled(values, stored) != stored
  }

  /**
   * No drift is reported exactly when the candidate equals the stored values,
   * or equals them without the driver-managed `imagePullSecrets` key.
   */
  lemma ConfigUnchangedIff(values: Config, stored: Config)
    ensures !ConfigChanged(values, stored) <==>
            values == stored ||
            (PULL_SECRETS_KEY !in values && PULL_SECRETS_KEY in stored &&
             values == stored - {PULL_SECRETS_KEY})
  {
  }

  // ---------------------------------------------------------------------------
  // The driver and its collaborators
  // ---------------------------------------------------------------------------

  /** How a driver call fails; each wraps the release name. */
  datatype Error =
    | ChartLoadError(release: string)
    | ReleaseQueryError(release: string)
    | InstallError(release: string)
    | UpgradeError(release: string)
    | UninstallError(release: string)
    | NotFoundError(release: string)

  /** A call the driver makes to Helm's release store or to the authenticator, in order. */
  datatype Call =
    | GetSecretValuesCall(namespace: string)
    | GetReleaseCall(name: string)
    | InstallCall(name: string, namespace: string, values: Config)
    | UpgradeCall(name: string, maxHistory: nat, values: Config)
    | UninstallCall(name: string)
    | AddToConfigMapCall(name: string, namespace: string)
    | AddSecretToAllNamespaceCall
    | DelFromConfigMapCall(name: string, namespace: string)

  /**
   * How Helm's install or upgrade action ends: it succeeds; it fails before
   * storing a revision; or it stores the new revision, marked failed, and then
   * reports the failure, so that later queries find that revision.
   */
  datatype ActionOutcome = Applied | Rejected | FailedRecorded

  /**
   * How Helm's uninstall action ends: it removes the release; it fails before
   * removing anything; or it removes the release's records and then reports
   * errors from its hooks or its wait.
   */
  datatype UninstallOutcome = Uninstalled | UninstallRejected | PurgedWithErrors

  /**
   * The answers Install's collaborators give: the chart's default values, or
   * None when locating or loading the chart fails; the secret values, or None
   * when that lookup fails; whether the release query fails for a reason other
   * than "not found"; how Helm's install or upgrade action ends; whether each
   * bookkeeping call fails.
   */
  datatype InstallEnv = InstallEnv(
    chart: Option<Config>,
    secrets: Option<Config>,
    queryFails: bool,
    action: ActionOutcome,
    addToConfigMapFails: bool,
    addSecretFails: bool)

  /** The calls Install makes from the release query on, in order. */
  function ReconcileCalls(name: string, namespace: string, ns: string, merged: Config,
                          found: bool, env: InstallEnv): seq<Call>
  {
    var action := if found then UpgradeCall(name, MAX_HISTORY, merged)
                  else InstallCall(name, namespace, merged);
    if env.queryFails then [GetReleaseCall(name)]
    else if !env.action.Applied? then [GetReleaseCall(name), action]
    else [GetReleaseCall(name), action, AddToConfigMapCall(name, ns), AddSecretToAllNamespaceCall]
  }

  /**
   * A release the query finds is upgraded, never installed again: the call
   * after the query is the upgrade, and a successful one is followed by
   * exactly the two bookkeeping calls.
   */
  lemma FoundReleaseIsUpgraded(prior: seq<Call>, name: string, namespace: string, ns: string,
                               merged: Config, env: InstallEnv)
    requires !env.queryFails
    ensures InstallCall(name, namespace, merged) !in ReconcileCalls(name, namespace, ns, merged, true, env)
    ensures var c := prior + ReconcileCalls(name, namespace, ns, merged, true, env);
            && |c| == |prior| + (if env.action.Applied? then 4 else 2)
            && c[|prior| + 1] == UpgradeCall(name, MAX_HISTORY, merged)
    ensures env.action.Applied? ==>
              (prior + ReconcileCalls(name, namespace, ns, merged, true, env))[|prior| + 2..] ==
              [AddToConfigMapCall(name, ns), AddSecretToAllNamespaceCall]
  {
    var c := prior + ReconcileCalls(name, namespace, ns, merged, true, env);
    assert c[|prior| + 1] == ReconcileCalls(name, namespace, ns, merged, true, env)[1];
    if env.action.Applied? {
      var bookkeeping := c[|prior| + 2..];
      assert |bookkeeping| == 2;
      assert bookkeeping[0] == ReconcileCalls(name, namespace, ns, merged, true, env)[2];
      assert bookkeeping[1] == ReconcileCalls(name, namespace, ns, merged, true, env)[3];
    }
  }

  /** The release Helm stores for `name` once an install or upgrade action has recorded its revision. */
  function Reconciled(releases: map<string, Release>, name: string, namespace: string,
                      values: Config): map<string, Release>
  {
    releases[name := if name in releases then Upgraded(releases[name], values)
                     else Created(namespace, values)]
  }

  /**
   * The driver bound to one cluster. Its state is what the driver's calls
   * change: Helm's release store, the authenticator's record of the
   * (package, namespace) pairs it has installed into, and the log of calls.
   */
  class HelmDriver {
    var releases: map<string, Release>
    var installed: set<(string, string)>
    var calls: seq<Call>

    /** Every stored release's current values are its newest revision. */
    ghost predicate Valid()
      reads this
    {
      forall name :: name in releases ==> releases[name].WellFormed()
    }

    /** A driver over a cluster that already holds `releases` and `installed`. */
    constructor (releases: map<string, Release>, installed: set<(string, string)>)
      requires forall name :: name in releases ==> releases[name].WellFormed()
      ensures Valid()
      ensures this.releases == releases && this.installed == installed && calls == []
    {
      this.releases := releases;
      this.installed := installed;
      calls := [];
    }

    /**
     * `createRelease`: Helm's install action under the caller's namespace. A
     * failure that comes after the revision is stored leaves the release in
     * the store.
     */
    method CreateRelease(name: string, namespace: string, values: Config, outcome: ActionOutcome)
      returns (err: Option<Error>)
      requires Valid()
      requires name !in releases
      modifies this
      ensures Valid()
      ensures err == (if outcome.Applied? then None else Some(InstallError(name)))
      ensures releases == if outcome.Rejected? then old(releases)
                          else old(releases)[name := Created(namespace, values)]
      ensures installed == old(installed)
      ensures calls == old(calls) + [InstallCall(name, namespace, values)]
    {
      calls := calls + [InstallCall(name, namespace, values)];
      if outcome.Rejected? {
        return Some(InstallError(name));
      }
      releases := releases[name := Created(namespace, values)];
      err := if outcome.FailedRecorded? then Some(InstallError(name)) else None;
    }

    /**
     * `upgradeRelease`: Helm's upgrade action with history capped at
     * MAX_HISTORY. A failure that comes after the revision is stored leaves
     * that revision as the release's newest.
     */
    method UpgradeRelease(name: string, values: Config, outcome: ActionOutcome)
      returns (err: Option<Error>)
      requires Valid()
      requires name in releases
      modifies this
      ensures Valid()
      ensures err == (if outcome.Applied? then None else Some(UpgradeError(name)))
      ensures releases == if outcome.Rejected? then old(releases)
                          else old(releases)[name := Upgraded(old(releases)[name], values)]
      ensures !outcome.Rejected? ==> |releases[name].history| <= MAX_HISTORY
      ensures installed == old(installed)
      ensures calls == old(calls) + [UpgradeCall(name, MAX_HISTORY, values)]
    {
      calls := calls + [UpgradeCall(name, MAX_HISTORY, values)];
      if outcome.Rejected? {
        return Some(UpgradeError(name));
      }
      releases := releases[name := Upgraded(releases[name], values)];
      err := if outcome.FailedRecorded? then Some(UpgradeError(name)) else None;
    }

    /**
     * The bookkeeping after a successful install or upgrade: record the
     * namespace and push the pull secret to all namespaces. Both failures are
     * only logged, so nothing is returned.
     */
    method RecordInstalled(name: string, ns: string, addFails: bool, propagateFails: bool)
      requires Valid()
      modifies this
      ensures Valid()
      ensures releases == old(releases)
      ensures installed == if addFails then old(installed) else old(installed) + {(name, ns)}
      ensures calls == old(calls) + [AddToConfigMapCall(name, ns), AddSecretToAllNamespaceCall]
    {
      calls := calls + [AddToConfigMapCall(name, ns)];
      if !addFails {
        installed := installed + {(name, ns)};
      }
      calls := calls + [AddSecretToAllNamespaceCall];
    }

    /**
     * The create-or-upgrade decision once the values are merged: query the
     * release; "not found" creates it, any other query error is returned, a
     * release that exists is upgraded. A successful action is followed by the
     * bookkeeping, whose failures never reach the caller.
     */
    method Reconcile(name: string, namespace: string, ns: string, values: Config, env: InstallEnv)
      returns (err: Option<Error>)
      requires Valid()
      modifies this
      ensures Valid()
      ensures calls == old(calls) + ReconcileCalls(name, namespace, ns, values, name in old(releases), env)
      // Success exactly when the query and the Helm action both succeed.
      ensures err.None? <==> !env.queryFails && env.action.Applied?
      // A failed query returns its error; neither action runs and nothing is recorded.
      ensures env.queryFails ==>
                err == Some(ReleaseQueryError(name)) &&
                releases == old(releases) && installed == old(installed)
      // A failed Helm action returns its error and skips the bookkeeping; the
      // store is untouched only when the action failed before storing a revision.
      ensures !env.queryFails && !env.action.Applied? ==>
                && err == Some(if name in old(releases) then UpgradeError(name) else InstallError(name))
                && installed == old(installed)
      ensures !env.queryFails && env.action.Rejected? ==> releases == old(releases)
      // Once the action stored its revision, the release exists, created under
      // the caller's namespace or upgraded in place, and non-empty values are its values.
      ensures !env.queryFails && !env.action.Rejected? ==>
                && releases == Reconciled(old(releases), name, namespace, values)
                && name in releases
                && (values != map[] ==> releases[name].config == values)
                && |releases[name].history| <= MAX_HISTORY
      // On success the tracking record gains `ns` unless that call failed.
      ensures err.None? ==>
                installed == if env.addToConfigMapFails then old(installed) else old(installed) + {(name, ns)}
    {
      ghost var log := calls;
      ghost var store := releases;
      ghost var stored := if env.action.Rejected? then store else Reconciled(store, name, namespace, values);
      ghost var action := if name in releases then UpgradeCall(name, MAX_HISTORY, values)
                          else InstallCall(name, namespace, values);
      calls := calls + [GetReleaseCall(name)];
      if env.queryFails {
        assert calls == log + [GetReleaseCall(name)];
        return Some(ReleaseQueryError(name));
      }
      if name !in releases {
        err := CreateRelease(name, namespace, values, env.action);
        assert releases == stored;
      } else {
        err := UpgradeRelease(name, values, env.action);
        assert releases == stored;
      }
      assert calls == log + [GetReleaseCall(name), action];
      if err.Some? {
        return err;
      }
      RecordInstalled(name, ns, env.addToConfigMapFails, env.addSecretFails);
      assert releases == stored;
      assert calls == log + [GetReleaseCall(name), action, AddToConfigMapCall(name, ns), AddSecretToAllNamespaceCall];
    }

    /**
     * `Install`: load the chart, resolve the namespace, overlay the secret
     * values onto the caller's map, then create or upgrade the release.
     */
    method Install(name: string, namespace: string, values: ValueMap, env: InstallEnv)
      returns (err: Option<Error>)
      requires Valid()
      requires env.chart.Some? ==> DefaultNamespaceIsString(namespace, env.chart.value)
      modifies this, values
      ensures Valid()
      ensures err.None? <==> env.chart.Some? && !env.queryFails && env.action.Applied?
      // A chart that does not load stops Install before any other call or change.
      ensures env.chart.None? ==>
                && err == Some(ChartLoadError(name))
                && releases == old(releases) && installed == old(installed)
                && calls == old(calls) && values.entries == old(values.entries)
      // Otherwise the secret lookup uses the resolved namespace and its values
      // are merged into the caller's map before the release is reconciled.
      ensures env.chart.Some? ==>
                && values.entries == MergedValues(old(values.entries), env.secrets)
                && calls == old(calls) + [GetSecretValuesCall(ResolveNamespace(namespace, env.chart.value))]
                            + ReconcileCalls(name, namespace, ResolveNamespace(namespace, env.chart.value),
                                             values.entries, name in old(releases), env)
      ensures env.chart.Some? && env.queryFails ==>
                err == Some(ReleaseQueryError(name)) &&
                releases == old(releases) && installed == old(installed)
      ensures env.chart.Some? && !env.queryFails && !env.action.Applied? ==>
                && err == Some(if name in old(releases) then UpgradeError(name) else InstallError(name))
                && installed == old(installed)
      ensures env.chart.Some? && !env.queryFails && env.action.Rejected? ==> releases == old(releases)
      ensures env.chart.Some? && !env.queryFails && !env.action.Rejected? ==>
                && releases == Reconciled(old(releases), name, namespace, values.entries)
                && name in releases
                && (values.entries != map[] ==> releases[name].config == values.entries)
                && |releases[name].history| <= MAX_HISTORY
      ensures err.None? ==>
                installed == if env.addToConfigMapFails then old(installed)
                             else old(installed) + {(name, ResolveNamespace(namespace, env.chart.value))}
    {
      if env.chart.None? {
        return Some(ChartLoadError(name));
      }
      var ns := ResolveNamespace(namespace, env.chart.value);
      calls := calls + [GetSecretValuesCall(ns)];
      if env.secrets.Some? {
        OverlaySecrets(values, env.secrets.value);
      }
      err := Reconcile(name, namespace, ns, values.entries, env);
    }

    /**
     * `Uninstall`: remove the release; an absent release is success with no
     * change. After a clean removal, drop the tracking entry for the namespace
     * the removed release carried; that call's failure is only logged. A
     * removal that reports errors returns them and skips that call.
     */
    method Uninstall(name: string, outcome: UninstallOutcome, delFails: bool)
      returns (err: Option<Error>)
      requires Valid()
      modifies this
      ensures Valid()
      ensures err == (if outcome.UninstallRejected? || (outcome.PurgedWithErrors? && name in old(releases))
                      then Some(UninstallError(name)) else None)
      ensures outcome.UninstallRejected? || name !in old(releases) ==>
                && releases == old(releases) && installed == old(installed)
                && calls == old(calls) + [UninstallCall(name)]
      ensures !outcome.UninstallRejected? && name in old(releases) ==> releases == old(releases) - {name}
      ensures outcome.PurgedWithErrors? ==>
                installed == old(installed) && calls == old(calls) + [UninstallCall(name)]
      ensures outcome.Uninstalled? && name in old(releases) ==>
                var ns := old(releases)[name].namespace;
                && calls == old(calls) + [UninstallCall(name), DelFromConfigMapCall(name, ns)]
                && installed == if delFails then old(installed) else old(installed) - {(name, ns)}
      ensures name !in releases <==> name !in old(releases) || !outcome.UninstallRejected?
    {
      calls := calls + [UninstallCall(name)];
      if outcome.UninstallRejected? {
        return Some(UninstallError(name));
      }
      if name !in releases {
        return None;
      }
      var ns := releases[name].namespace;
      releases := releases - {name};
      if outcome.PurgedWithErrors? {
        return Some(UninstallError(name));
      }
      calls := calls + [DelFromConfigMapCall(name, ns)];
      if !delFails {
        installed := installed - {(name, ns)};
      }
      return None;
    }

    /**
     * `IsConfigChanged`: compare the caller's values with the stored release's,
     * after back-filling `imagePullSecrets` into the caller's map. A failed
     * lookup, including a missing release, reports no change and an error.
     */
    method IsConfigChanged(name: string, values: ValueMap, queryFails: bool)
      returns (changed: bool, err: Option<Error>)
      requires Valid()
      modifies this, values
      ensures Valid()
      ensures releases == old(releases) && installed == old(installed)
      ensures calls == old(calls) + [GetReleaseCall(name)]
      ensures err.None? <==> !queryFails && name in releases
      ensures err.Some? ==>
                && err == Some(NotFoundError(name)) && !changed
                && values.entries == old(values.entries)
      ensures err.None? ==>
                && values.entries == Backfilled(old(values.entries), releases[name].config)
                && changed == ConfigChanged(old(values.entries), releases[name].config)
                && (changed <==> values.entries != releases[name].config)
                // The stored values compared against are the newest retained revision.
                && (changed <==> values.entries != releases[name].history[|releases[name].history| - 1])
    {
      calls := calls + [GetReleaseCall(name)];
      if queryFails || name !in releases {
        return false, Some(NotFoundError(name));
      }
      var stored := releases[name].config;
      if PULL_SECRETS_KEY !in values.entries {
        if PULL_SECRETS_KEY in stored {
          values.Set(PULL_SECRETS_KEY, stored[PULL_SECRETS_KEY]);
        }
      }
      changed := values.entries != stored;
      err := None;
    }
  }
}
