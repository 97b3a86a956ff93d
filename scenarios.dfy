/**
 * Call sequences over the driver: what a caller can conclude from the
 * contracts of Install, Uninstall and IsConfigChanged alone.
 */
module Scenarios {
  import opened Wrappers
  import opened Values
  import opened Driver

  /** Collaborators that all succeed, with the given chart defaults and no registry secret. */
  function QuietEnv(chart: Config): InstallEnv
  {
    InstallEnv(Some(chart), None, false, Applied, false, false)
  }

  /**
   * Uninstalling twice succeeds both times: the second call finds nothing and
   * changes nothing.
   */
  method UninstallTwice(d: HelmDriver, name: string) returns (first: Option<Error>, second: Option<Error>)
    requires d.Valid()
    modifies d
    ensures d.Valid()
    ensures first == None && second == None
    ensures d.releases == old(d.releases) - {name}
  {
    first := d.Uninstall(name, Uninstalled, false);
    ghost var afterFirst := d.releases;
    ghost var trackedAfterFirst := d.installed;
    second := d.Uninstall(name, Uninstalled, false);
    assert d.releases == afterFirst && d.installed == trackedAfterFirst;
  }

  /**
   * The store after Helm creates a release and then upgrades it: one more
   * release, holding the upgrade's values and both revisions.
   */
  lemma CreatedThenUpgraded(store: map<string, Release>, name: string, namespace: string,
                            first: Config, second: Config)
    requires name !in store
    ensures Reconciled(Reconciled(store, name, namespace, first), name, namespace, second).Keys == store.Keys + {name}
    ensures Reconciled(Reconciled(store, name, namespace, first), name, namespace, second)[name] ==
              Release(namespace, UpgradeValues(first, second), [first, UpgradeValues(first, second)])
  {
    RetainedAfterRevision([first], UpgradeValues(first, second));
  }

  /**
   * Installing a package that is not there creates one release; installing it
   * again upgrades that release, whose stored values become the new ones
   * (or stay the first ones when the new ones are empty) and whose history
   * holds both revisions.
   */
  method CreateThenUpgrade(d: HelmDriver, name: string, namespace: string, chart: Config,
                           first: Config, second: Config)
    returns (created: Option<Error>, upgraded: Option<Error>)
    requires d.Valid() && name !in d.releases
    requires DefaultNamespaceIsString(namespace, chart)
    modifies d
    ensures d.Valid()
    ensures created == None && upgraded == None
    ensures d.releases.Keys == old(d.releases).Keys + {name}
    ensures d.releases[name] == Release(namespace, UpgradeValues(first, second),
                                        [first, UpgradeValues(first, second)])
    ensures second != map[] ==> d.releases[name].config == second
  {
    var values := new ValueMap(first);
    created := d.Install(name, namespace, values, QuietEnv(chart));
    assert d.releases == Reconciled(old(d.releases), name, namespace, first);
    ghost var created1 := d.releases;
    values := new ValueMap(second);
    upgraded := d.Install(name, namespace, values, QuietEnv(chart));
    assert d.releases == Reconciled(created1, name, namespace, second);
    CreatedThenUpgraded(old(d.releases), name, namespace, first, second);
  }

  /**
   * An install whose Helm action fails after storing its revision still
   * leaves the release behind: the retry finds it and upgrades it instead of
   * creating it again.
   */
  method FailedInstallIsRetriedAsUpgrade(d: HelmDriver, name: string, namespace: string, chart: Config,
                                         first: Config, second: Config)
    returns (failed: Option<Error>, retried: Option<Error>)
    requires d.Valid() && name !in d.releases
    requires DefaultNamespaceIsString(namespace, chart)
    modifies d
    ensures d.Valid()
    ensures failed == Some(InstallError(name)) && retried == None
    ensures |d.calls| >= 3 && d.calls[|d.calls| - 3] == UpgradeCall(name, MAX_HISTORY, second)
    ensures name in d.releases && d.releases[name].history == [first, UpgradeValues(first, second)]
  {
    var values := new ValueMap(first);
    failed := d.Install(name, namespace, values, InstallEnv(Some(chart), None, false, FailedRecorded, false, false));
    assert d.releases == Reconciled(old(d.releases), name, namespace, first);
    ghost var created := d.releases;
    values := new ValueMap(second);
    var env := QuietEnv(chart);
    ghost var ns := ResolveNamespace(namespace, chart);
    ghost var prior := d.calls + [GetSecretValuesCall(ns)];
    assert name in created;
    retried := d.Install(name, namespace, values, env);
    assert d.calls == prior + ReconcileCalls(name, namespace, ns, values.entries, true, env);
    assert values.entries == second;
    assert d.releases == Reconciled(created, name, namespace, second);
    CreatedThenUpgraded(old(d.releases), name, namespace, first, second);
    FoundReleaseIsUpgraded(prior, name, namespace, ns, second, env);
  }

  /**
   * Upgrading with no values at all keeps the values the release already
   * has, and records them again as the newest revision.
   */
  method EmptyUpgradeKeepsValues() returns (upgraded: Release)
    ensures upgraded == Release("ns-a", map["replicas" := Int(1)],
                                [map["replicas" := Int(1)], map["replicas" := Int(1)]])
  {
    var d := new HelmDriver(map[], {});
    var chart: Config := map[];
    var values := new ValueMap(map["replicas" := Int(1)]);
    var err := d.Install("app1", "ns-a", values, QuietEnv(chart));
    values := new ValueMap(map[]);
    err := d.Install("app1", "ns-a", values, QuietEnv(chart));
    upgraded := d.releases["app1"];
  }

  /**
   * Installing "app1" with no namespace from a chart whose default namespace
   * is "ns-a": the secret lookup and the tracking record use "ns-a", while the
   * release itself is created with the caller's empty namespace. Uninstalling
   * it then removes the tracking entry for "" and leaves the one for "ns-a".
   */
  method EmptyNamespaceInstallThenUninstall()
    returns (created: Release, trackedAfterInstall: set<(string, string)>,
             trackedAfterUninstall: set<(string, string)>)
    ensures created == Release("", map["replicas" := Int(1)], [map["replicas" := Int(1)]])
    ensures trackedAfterInstall == {("app1", "ns-a")}
    ensures trackedAfterUninstall == {("app1", "ns-a")}
  {
    var d := new HelmDriver(map[], {});
    var values := new ValueMap(map["replicas" := Int(1)]);
    var chart := map[DEFAULT_NAMESPACE_KEY := Str("ns-a")];
    assert ResolveNamespace("", chart) == "ns-a";
    var err := d.Install("app1", "", values, QuietEnv(chart));
    created := d.releases["app1"];
    trackedAfterInstall := d.installed;
    err := d.Uninstall("app1", Uninstalled, false);
    trackedAfterUninstall := d.installed;
  }

  /**
   * An uninstall that removes "app1" and then reports hook errors returns its
   * error and skips the config-map update; the retry finds nothing, succeeds,
   * and so the tracking entry for "ns-a" stays behind.
   */
  method PurgedUninstallKeepsTracking()
    returns (purged: Option<Error>, retried: Option<Error>, trackedAfter: set<(string, string)>)
    ensures purged == Some(UninstallError("app1")) && retried == None
    ensures trackedAfter == {("app1", "ns-a")}
  {
    var d := new HelmDriver(map[], {});
    var values := new ValueMap(map["replicas" := Int(1)]);
    var chart: Config := map[];
    var err := d.Install("app1", "ns-a", values, QuietEnv(chart));
    assert d.installed == {("app1", "ns-a")};
    purged := d.Uninstall("app1", PurgedWithErrors, false);
    retried := d.Uninstall("app1", Uninstalled, false);
    trackedAfter := d.installed;
  }

  /**
   * A failing config-map update does not turn a successful install into a
   * failure; the release is created and only the tracking record is missing.
   */
  method BookkeepingFailureIsSwallowed(d: HelmDriver, name: string, namespace: string,
                                       chart: Config, values: ValueMap)
    returns (err: Option<Error>)
    requires d.Valid() && name !in d.releases
    requires DefaultNamespaceIsString(namespace, chart)
    modifies d, values
    ensures d.Valid()
    ensures err == None
    ensures name in d.releases && d.installed == old(d.installed)
  {
    err := d.Install(name, namespace, values, InstallEnv(Some(chart), None, false, Applied, true, true));
  }

  /** The drift examples: a missing pull-secret key is back-filled, a changed replica count is drift. */
  lemma DriftExamples()
    ensures !ConfigChanged(map["replicas" := Int(3)],
                           map["replicas" := Int(3), PULL_SECRETS_KEY := Str("s1")])
    ensures ConfigChanged(map["replicas" := Int(4)],
                          map["replicas" := Int(3), PULL_SECRETS_KEY := Str("s1")])
  {
    var stored := map["replicas" := Int(3), PULL_SECRETS_KEY := Str("s1")];
    ConfigUnchangedIff(map["replicas" := Int(3)], stored);
    assert stored - {PULL_SECRETS_KEY} == map["replicas" := Int(3)];
    assert stored["replicas"] != Int(4);
  }

  /** Chart URLs are accepted by scheme alone, and case-sensitively. */
  lemma ChartUrlExamples()
    ensures ChartUrlIsPrefixed("oci://reg/app1")
    ensures ChartUrlIsPrefixed("http://reg/app1")
    ensures !ChartUrlIsPrefixed("reg/app1")
    ensures !ChartUrlIsPrefixed("OCI://reg/app1")
  {
    assert "oci://reg/app1"[..6] == "oci://";
    assert "http://reg/app1"[..7] == "http://";
    assert "reg/app1"[..8][0] == 'r' && "reg/app1"[..7][0] == 'r' && "reg/app1"[..6][0] == 'r';
    var upper := "OCI://reg/app1";
    assert upper[..8][0] == 'O' && upper[..7][0] == 'O' && upper[..6][0] == 'O';
  }
}
