# Helm package driver, modelled in Dafny

This project models the Helm package driver of the EKS Anywhere packages
controller (`pkg/driver/helmdriver.go`). The driver reconciles one package
against a cluster:

- `Install` loads the package's chart and resolves the namespace to work in. It overlays the
  authenticator's registry-secret values onto the caller's values and queries Helm for the release.
  It then creates the release or upgrades it, keeping at most two revisions. On success it records
  the namespace with the authenticator and pushes the pull secret to all namespaces.
- `Uninstall` removes the release. A release that is already gone counts as success. After a
  removal it drops the namespace record.
- `IsConfigChanged` compares candidate values with the stored release values. First it back-fills
  the driver-managed `imagePullSecrets` key.

Files:

- `wrappers.dfy`: `Option`.
- `values.dfy`: the values tree (`Value`, `Config`). It also holds `ValueMap`, a reference object
  that stands for the caller's Go map. The driver writes into that map in place.
- `helmdriver.dfy` (module `Driver`) holds the decision rules as functions with lemmas. These are
  chart URL schemes, namespace resolution, secret overlay, retained history and the drift
  back-fill. The same module holds the class `HelmDriver`. The class's state is Helm's release
  store (`releases`), the authenticator's record of `(package, namespace)` pairs (`installed`), and
  the ordered log of collaborator calls (`calls`). Its methods `Install`, `Reconcile`,
  `CreateRelease`, `UpgradeRelease`, `RecordInstalled`, `Uninstall` and `IsConfigChanged` follow
  the Go functions.
- `scenarios.dfy`: call sequences proved from the method contracts alone. They cover uninstalling
  twice, create then upgrade, a failed install retried, an upgrade with no values, an uninstall
  that fails after removal, and a bookkeeping failure. One install starts from an empty namespace.
  Two concrete lemmas give drift and URL examples.

Collaborator outcomes are parameters (`InstallEnv`, the outcome and boolean of `Uninstall`, and the
boolean of `IsConfigChanged`), so each contract holds for every answer. Those outcomes are:

- whether the chart loads, and the chart's values;
- the secret lookup result;
- whether the release query fails for a reason other than "not found";
- how the Helm install or upgrade ends: applied, failed before storing a revision, or failed after
  storing it;
- whether each bookkeeping call fails;
- how Helm's uninstall ends: removed, failed before removing anything, or removed and then failed.

Whether the query reports "not found" depends only on the model's release store.

Three behaviours of Helm 3's actions decide what the driver sees next, and the model states all three:

- Helm's upgrade, run without reset or reuse of values, keeps the current release's values when it is
  given no values at all (`Driver.UpgradeValues`).
- A Helm install or upgrade can fail after it has stored its new revision, marked failed. That
  revision stays in the store. So the next `Install` finds the release and upgrades it, `Uninstall`
  removes it, and `IsConfigChanged` compares against its values
  (`Scenarios.FailedInstallIsRetriedAsUpgrade`).
- Helm's uninstall can remove the release's records and then report errors from its hooks or its
  wait. The driver returns that error (`:189`) and skips `DelFromConfigMap`. A second `Uninstall`
  finds nothing and succeeds, so the tracking entry stays (`Scenarios.PurgedUninstallKeepsTracking`).

The model follows the code in these places:

- The create action receives the caller's namespace as given, which may be empty
  (`pkg/driver/helmdriver.go:74`). It is assigned before resolution. The resolved namespace is used
  only for the secret lookup and for `AddToConfigMap`. An upgrade keeps the release's namespace.
  So after an install with an empty namespace, the release carries `""` while the tracking record
  carries the resolved namespace. A later `Uninstall` deletes the entry for `""` and leaves the
  resolved one in place (`Scenarios.EmptyNamespaceInstallThenUninstall`).
- A release query error other than "not found" aborts `Install` (`:118`). It does not fall through
  to an upgrade.
- `IsConfigChanged` reports every query error the same way, as "not found" with no change
  (`:207-210`).
- The secret overlay runs before the release query. So a failed query or action still leaves the
  secret keys written into the caller's map.

## Model

| member | source | states |
|---|---|---|
| `Values.ValueMap.Set` | pkg/driver/helmdriver.go:98 | a write into the caller's map replaces exactly one key and keeps every other key |
| `Driver.ChartUrlIsPrefixedIffScheme` | pkg/driver/helmdriver.go:159-163 | a chart URL is accepted exactly when it splits into one of `https://`, `http://`, `oci://` and a remainder |
| `Driver.ResolveNamespace` | pkg/driver/helmdriver.go:81-88 | a non-empty caller namespace wins; an empty one takes the chart's `defaultNamespace`, else `"default"`; the result is empty only when the chart declares `""` |
| `Driver.ResolveNamespaceIsSettled` | pkg/driver/helmdriver.go:81-88 | a non-empty resolved namespace resolves to itself under any chart, and a non-empty caller namespace makes the chart irrelevant |
| `Driver.Overlaid` | pkg/driver/helmdriver.go:97-99 | merged keys are the union; every secret key maps to the secret value; every other caller key keeps its value |
| `Driver.OverlaidIsIdempotent` | pkg/driver/helmdriver.go:97-99 | overlaying the same secrets a second time changes nothing |
| `Driver.OverlaySecrets` | pkg/driver/helmdriver.go:97-99 | the range loop, in any key order, leaves the caller's map equal to the overlay of its old contents with the secrets |
| `Driver.Retained` | pkg/driver/helmdriver.go:171-174 | after an upgrade with `MaxHistory = 2` the history holds min(old length + 1, 2) revisions, the newest ones, ending with the new values |
| `Driver.RetainedAfterRevision` | pkg/driver/helmdriver.go:171-174 | upgrading a release that has at least one revision leaves exactly its previous revision and the new one |
| `Driver.RetainedOfSuffix` | pkg/driver/helmdriver.go:171-174 | an upgrade of a history that is the newest part of some sequence leaves the newest part of that sequence followed by the new values |
| `Driver.UpgradedHistoryLength` | pkg/driver/helmdriver.go:24 | after n ≥ 1 upgrades of a history of length m, min(m + n, 2) revisions remain |
| `Driver.UpgradedHistoryIsSuffix` | pkg/driver/helmdriver.go:171-174 | after any number of upgrades the history is the newest part of the old history followed by the upgrades' values |
| `Driver.UpgradesRetainNewest` | pkg/driver/helmdriver.go:24 | after any number of upgrades at most 2 revisions remain, the last is the latest values, and after two or more successful upgrades exactly the last two configurations remain |
| `Driver.Backfilled` | pkg/driver/helmdriver.go:212-218 | the adjusted candidate keeps every caller key and value unchanged and gains only the stored `imagePullSecrets`, and only when the caller lacks it |
| `Driver.UpgradeValues` | pkg/driver/helmdriver.go:170-174 | Helm's upgrade stores the given values when there are any; with none it keeps the current values, so it leaves a release with no values only when it had none |
| `Driver.ConfigUnchangedIff` | pkg/driver/helmdriver.go:212-220 | no drift is reported exactly when the candidate equals the stored values, or equals them minus a stored `imagePullSecrets` the caller omitted |
| `Driver.FoundReleaseIsUpgraded` | pkg/driver/helmdriver.go:101-122 | when the query finds the release, the call after it is the upgrade and no install is made; a successful upgrade is followed by exactly the two bookkeeping calls |
| `Driver.HelmDriver.CreateRelease` | pkg/driver/helmdriver.go:147-155 | Helm's install succeeds, or fails with an install error; unless it failed before storing, the store gains a one-revision release under the given namespace |
| `Driver.HelmDriver.UpgradeRelease` | pkg/driver/helmdriver.go:165-180 | Helm's upgrade succeeds, or fails with an upgrade error; unless it failed before storing, the release gets the upgrade's values, keeps its namespace and its history is capped at 2 |
| `Driver.HelmDriver.RecordInstalled` | pkg/driver/helmdriver.go:126-133 | the bookkeeping calls `AddToConfigMap` then `AddSecretToAllNamespace`, adds the tracking pair unless that call fails, never touches the release store and returns no error |
| `Driver.HelmDriver.Reconcile` | pkg/driver/helmdriver.go:101-135 | "not found" creates, another query error is returned with nothing changed, an existing release is upgraded; a failed action returns its error without bookkeeping, and leaves its revision stored if it got that far; success means both succeeded, whatever bookkeeping does |
| `Driver.HelmDriver.Install` | pkg/driver/helmdriver.go:68-136 | a chart load failure returns before any call or change; otherwise the caller's map becomes the overlay, and the secret lookup and tracking use the resolved namespace; success holds exactly when load, query and action succeed; once the action stored its revision the release exists with the merged values (unless they are empty) and at most 2 revisions |
| `Driver.HelmDriver.Uninstall` | pkg/driver/helmdriver.go:182-196 | an absent release is success with no change; a failure before removal is an error with no change; a removal that then reports errors deletes the release and returns the error without `DelFromConfigMap`; a clean removal deletes the release and asks `DelFromConfigMap` for the removed release's namespace, ignoring its failure |
| `Driver.HelmDriver.IsConfigChanged` | pkg/driver/helmdriver.go:205-221 | a failed lookup gives (false, error) and leaves the map alone; otherwise the caller's map is back-filled in place and the verdict is its inequality with the values of the newest stored revision |
| `Scenarios.UninstallTwice` | pkg/driver/helmdriver.go:182-196 | two uninstalls in a row both succeed and leave the store without the release |
| `Scenarios.CreatedThenUpgraded` | pkg/driver/helmdriver.go:101-122 | creating a release and then upgrading it adds exactly that release, holding the upgrade's values and both revisions |
| `Scenarios.CreateThenUpgrade` | pkg/driver/helmdriver.go:101-135 | a first install creates exactly one release; a second one upgrades it to the new values, or keeps the first ones when the new ones are empty, with both revisions retained |
| `Scenarios.FailedInstallIsRetriedAsUpgrade` | pkg/driver/helmdriver.go:101-122 | after an install that fails once its revision is stored, the next install finds the release, calls Helm's upgrade and succeeds, leaving both revisions |
| `Scenarios.EmptyUpgradeKeepsValues` | pkg/driver/helmdriver.go:166-180 | installing `{replicas: 1}` and then installing again with no values leaves `{replicas: 1}` as the values of both retained revisions |
| `Scenarios.EmptyNamespaceInstallThenUninstall` | pkg/driver/helmdriver.go:74-110 | an install with no namespace from a chart defaulting to `ns-a` creates the release with namespace `""`, records `ns-a`, and the record for `ns-a` survives a later uninstall |
| `Scenarios.PurgedUninstallKeepsTracking` | pkg/driver/helmdriver.go:182-196 | an uninstall that removes the release and then fails returns its error; the retry succeeds, and the tracking entry for the release's namespace remains |
| `Scenarios.BookkeepingFailureIsSwallowed` | pkg/driver/helmdriver.go:106-116 | failing `AddToConfigMap` and `AddSecretToAllNamespace` still give a successful install and a created release |
| `Scenarios.DriftExamples` | pkg/driver/helmdriver.go:212-220 | stored `{replicas: 3, imagePullSecrets: s1}` against `{replicas: 3}` is no drift, against `{replicas: 4}` is drift |
| `Scenarios.ChartUrlExamples` | pkg/driver/helmdriver.go:159-163 | `oci://` and `http://` URLs are accepted; a bare path or an upper-case scheme is not |

## Left out

- `Initialize`, `NewHelm` and `helmLog` (`pkg/driver/helmdriver.go:38-66`, `:198-203`) are wiring
  only. They set up the target-cluster session and the registry client from a credentials file,
  read `HELM_DRIVER`, and adapt the logger. The model assumes an initialised driver.
- `getChart` (`:138-145`) locates and loads the chart through Helm's loader over the network. It is
  replaced by the `chart` outcome: None for a failure, or the chart's values. So the package source
  (URI, version, digest) does not appear.
- `Driver.Upgraded`: Helm's revision status (deployed, failed, superseded) is not modelled. Helm
  reuses values from the last deployed revision and the model reuses the newest one. The two differ
  only after a failed upgrade followed by an upgrade with no values.
- `Driver.HelmDriver.CreateRelease`: whether Helm's install fails before or after storing its
  revision is an outcome parameter. The model does not derive it from Kubernetes errors.
- `Driver.HelmDriver.Uninstall`: whether Helm's uninstall fails before or after removing the
  release's records is an outcome parameter, as for install.
- `Driver.HelmDriver.UpgradeRelease`: the same holds for Helm's upgrade. A failed upgrade's revision
  also counts against the cap of 2, as the model's history does.
- `Driver.Retained`: Helm's pruning never deletes the last deployed revision, and the model keeps
  the newest `MAX_HISTORY` revisions whatever their status. After a failed upgrade the two kept
  revisions can therefore differ: from `[v1 deployed]`, a failed upgrade `a` and then an upgrade `b`,
  Helm keeps `[v1, b]` and the model keeps `[a, b]`. The cap of 2 and the newest revision agree in
  both. So the third ensures of `Driver.UpgradesRetainNewest` and `Driver.UpgradedHistoryIsSuffix`
  describe runs in which every upgrade succeeds. Helm's storage layout is not modelled either.
- The `chartNS.(string)` type assertion (`:83`) panics on a non-string default namespace. This is
  the precondition `DefaultNamespaceIsString`.
- Go's nil maps are not modelled. A nil `values` map panics on the writes at `:98` and `:216`, and
  `reflect.DeepEqual` tells a nil map from an empty one. The model has only maps and treats nil as
  empty.
- Floating-point values, and `DeepEqual`'s distinction between numeric types, are not modelled.
  Values are null, booleans, integers, strings, lists and objects.
- Error messages are reduced to an error kind and the release name.
- Logging, `context.Context` cancellation and concurrent calls are not modelled. Each call is
  sequential.
- What Helm's actions do to Kubernetes objects is not modelled. So is what
  `AddSecretToAllNamespace` does beyond its call being made.
- `pkg/authenticator/mocks/kubeconfig.go` is generated test scaffolding with no logic.
