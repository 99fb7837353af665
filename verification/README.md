# infra-inventory in Dafny

A model of the core of infra-inventory, a small web service. It lists the
websites that sit behind the SSL proxy of a Consul-managed infrastructure.

- **Extraction** (`ConsulClient`, consul_client.dfy). The service walks the
  Consul catalog: datacenters, then the services of each datacenter, then the
  instances of each service. It builds one record per instance:
  `name, environment, stage, url, description, tags`.
  - The `consul` service is skipped.
  - `caddy-git` instances are renamed after the domain they proxy.
  - The `ssl-proxy-backend` marker is removed from each record's tags.
  - The three catalog requests are oracles in a `Catalog` value. Each
    returns an `Option`, and `None` stands for a failed request.
  - The places where the Python code raises become a `Fault` in a
    `Result`. The nested loop is a method, `GetWebsitesFromConsul`. It is
    proved equal to a functional specification, `Extract`.
- **Query side** (`App`, app.dfy):
  - `get_environment_filters` builds the per-environment stage and tag
    lists plus the `'all'` lists. It is a method with loops, proved equal to
    `StageFacets`/`TagFacets`.
  - The environment list of the index page.
  - The `/get_stages` and `/get_tags` lookups.
  - The `/filter` query. It is a method with a loop, proved equal to
    `Filter`.
  - The in-memory snapshot, a class `Inventory`. `load_websites` and
    `refresh_websites_from_consul` replace it.
- **Support modules**:
  - `Order` (order.dfy): the ordering of Python strings, and `sorted()` of a
    set of strings.
  - `Text` (text.dfy): `str.lower`, `str.split` on one character, the
    substring test `p in s`, and `list.remove` with the first-occurrence
    search it performs.
  - `Wrappers` (wrappers.dfy): `Option` and `Result`.

The model keeps these behaviours of the code as written, although an
inventory walk might be expected to do otherwise:
- A failed services request is not skipped. `len(None)` raises before the
  check, so the whole walk aborts.
- An empty services map ends the walk. Later datacenters are not visited,
  and the records gathered so far are returned.
- `list.remove` deletes only the first marker. An instance tagged with the
  marker twice keeps one.
- `env_tags` has no key for an environment none of whose records carries a
  tag. Looking it up yields `[]`.
- A selector whose first comma-separated piece is empty, such as `",prod"`,
  restricts nothing.

## Model

| member | source | states |
|---|---|---|
| ConsulClient.MakeWebsite | infra_inventory/consul_client.py:84-96 | A record is made exactly when the name resolves, `NodeMeta` has `env` and `stage`, `ServiceMeta` has `proxy_fqdn`, and `ServiceTags` holds the marker. The record's fields are as follows. `name` is `Service`, falling back to the service name; when that is `caddy-git`, it is `proxy_fqdn` instead. `environment` and `stage` come from `NodeMeta`. `url` is `"https://" + proxy_fqdn`. `description` defaults to `""`. `tags` is `ServiceTags` with its first marker deleted and every other tag kept in order, so one marker fewer by length and multiset. |
| ConsulClient.GetWebsitesFromConsul | infra_inventory/consul_client.py:57-100 | The nested loop with its `continue`s and early `return`s computes `Extract(cat)`: the records of every visited instance in datacenter, service, instance order, or the fault that aborts the walk. |
| ConsulClient.NoDatacentersNoRecords | infra_inventory/consul_client.py:63-66 | No datacenter list (a failed request) or an empty one gives the empty record list. |
| ConsulClient.ServiceRecordsIgnoreBootstrap | infra_inventory/consul_client.py:73-80 | The records of a datacenter's services do not depend on what the catalog holds for the `consul` service. |
| ConsulClient.DcRecordsIgnoreBootstrap | infra_inventory/consul_client.py:67-80 | The same holds for the records of a list of datacenters. |
| ConsulClient.BootstrapNeverContributes | infra_inventory/consul_client.py:75-76 | Two catalogs that differ only in the instances of `consul` give the same outcome. |
| ConsulClient.SkippedServiceContributesNothing | infra_inventory/consul_client.py:75-80 | Removing a service that is `consul`, or whose instances are `None` or empty, from the list leaves the records unchanged. The walk continues with the next service. |
| ConsulClient.EmptyServicesStopDcRecords | infra_inventory/consul_client.py:67-71 | The datacenter records of `pre + [dc] + post` equal those of `pre` when `dc` has an empty services map. |
| ConsulClient.EmptyServicesEndWalk | infra_inventory/consul_client.py:67-71 | When a datacenter's services map is empty, the result is the records of the datacenters before it. The datacenters after it are never visited. |
| ConsulClient.UnavailableServicesCrashDcRecords | infra_inventory/consul_client.py:68-69 | Reaching a datacenter whose services request failed yields `Err(ServicesUnavailable(dc))`, whatever comes after it. |
| ConsulClient.UnavailableServicesAbortWalk | infra_inventory/consul_client.py:67-69 | A failed services request aborts the whole walk when the walk reaches it. It is not skipped. |
| ConsulClient.RecordsOfExact | infra_inventory/consul_client.py:82-98 | Building one record per visit succeeds exactly when every visit yields a record. Record `k` is then the one built from visit `k`. |
| ConsulClient.RecordsOfAppend | infra_inventory/consul_client.py:82-98 | The records of two runs of visits, one after the other, are the two record lists concatenated. |
| ConsulClient.InstanceRecordsAreVisits | infra_inventory/consul_client.py:82-98 | The instance loop builds one record per instance of the service, in order. |
| ConsulClient.ServiceRecordsAreVisits | infra_inventory/consul_client.py:73-98 | The service loop builds one record per instance of each service it does not skip, in order. |
| ConsulClient.DcRecordsAreVisits | infra_inventory/consul_client.py:67-98 | When every datacenter the walk reaches answers its services request, the datacenter loop builds one record per visited instance, in order. The walk stops at the first empty services map. |
| ConsulClient.DcRecordsUnanswered | infra_inventory/consul_client.py:67-69 | A failed services request in a datacenter the walk reaches makes the walk fail. |
| ConsulClient.OneRecordPerInstance | infra_inventory/consul_client.py:67-98 | For any datacenter list, the walk succeeds exactly when every datacenter it reaches answers its services request and every visited instance yields a record. Record `k` is then the one built from the `k`-th visited instance, in datacenter, service, instance order. |
| ConsulClient.EmptyThenUnanswered | infra_inventory/consul_client.py:67-71 | A datacenter with an empty services map followed by one whose request fails gives `Ok([])`: the second is never reached. |
| ConsulClient.MarkerStripped | infra_inventory/consul_client.py:94-96 | When the marker occurs once in `ServiceTags`, the record's tags do not contain it. |
| ConsulClient.DuplicateMarkerSurvives | infra_inventory/consul_client.py:96 | An instance tagged `[marker, marker]` yields a record whose tags are `[marker]`. |
| ConsulClient.SingleSiteRecord | infra_inventory/consul_client.py:84-96 | The scenario instance (env `prod`, stage `live`, domain `site.example.com`, tags marker and `blue`, no description) makes the record `web` with url `https://site.example.com`, description `""` and tags `["blue"]`. |
| ConsulClient.SingleInstanceCatalog | infra_inventory/consul_client.py:57-100 | A catalog with one datacenter, one service other than `consul` and one instance yields exactly that instance's record. |
| ConsulClient.SingleSiteScenario | infra_inventory/consul_client.py:57-100 | The one-datacenter, one-service, one-instance catalog yields exactly `[web / prod / live / https://site.example.com / "" / ["blue"]]`. |
| Text.IndexOf | infra_inventory/consul_client.py:96 | The first-occurrence search inside `list.remove`: the position of the element, with no occurrence before it. |
| Text.RemoveFirst | infra_inventory/consul_client.py:96 | `list.remove`: it fails exactly when the element is absent. Otherwise it deletes the first occurrence and keeps everything else in order, so the multiset drops one copy. |
| Text.RemoveFirstClears | infra_inventory/consul_client.py:96 | After `remove`, the element is gone exactly when it occurred once. |
| Text.Lower | infra_inventory/app.py:104-118 | `str.lower` keeps the length, maps each character, and leaves no upper-case ASCII letter. |
| Text.ContainsAt | infra_inventory/app.py:116-118 | The substring test `p in s` holds exactly when `p` occurs at some position of `s`. |
| Text.Split | infra_inventory/app.py:107-109 | `str.split(',')` yields at least one piece, and no piece contains the separator. |
| Text.JoinSplit | infra_inventory/app.py:107-109 | Joining the pieces of a split with the separator gives back the string. |
| Text.SplitJoin | infra_inventory/app.py:107-109 | Splitting a join of separator-free pieces gives back the pieces. |
| Text.SplitHeadEmpty | infra_inventory/app.py:122-124 | The first piece is `""` exactly when the string is empty or starts with the separator. |
| Order.Sorted | infra_inventory/app.py:71-72 | `sorted(set)` is strictly ascending, holds exactly the set's elements, and has the set's size. |
| Order.SortedUnique | infra_inventory/app.py:71-72 | Any strictly ascending listing of a set is `sorted` of that set. |
| App.EnvironmentFilters | infra_inventory/app.py:59-87 | The loops over records and tags, the sorting comprehensions and the `'all'` updates compute `StageFacets`/`TagFacets`. |
| App.UnionOfValues | infra_inventory/app.py:75-82 | The `update` loop over the dictionary's values gathers exactly the union of the lists. |
| App.AddEachExact | infra_inventory/app.py:67-68 | Adding each tag under one key creates that key only when there is a tag. It leaves other keys alone and adds exactly the tags' set. |
| App.StageBucketsExact | infra_inventory/app.py:64-66 | `env_stages` has a key for exactly the records' environments. Each key holds exactly that environment's stages. |
| App.TagBucketsExact | infra_inventory/app.py:64-68 | `env_tags` has a key for exactly the environments with a tagged record. Each key holds exactly that environment's tags. |
| App.StageFacetsExact | infra_inventory/app.py:61-72 | For an environment other than `'all'`: it has a stage list exactly when some record has it. That list is strictly ascending and holds exactly the stages of its records. |
| App.TagFacetsExact | infra_inventory/app.py:61-72 | For an environment other than `'all'`: it has a tag list exactly when one of its records has a tag. That list is strictly ascending and holds exactly the tags of its records. |
| App.AllOfSortedBuckets | infra_inventory/app.py:71-85 | The `'all'` list is strictly ascending and holds exactly what any per-environment list holds. |
| App.StageFacetsAll | infra_inventory/app.py:75-85 | The `'all'` stage list is strictly ascending. It equals the union of the per-environment lists, that is, the stages of all records; an environment named `'all'` is overwritten by it. |
| App.TagFacetsAll | infra_inventory/app.py:75-85 | The `'all'` tag list is strictly ascending. It equals the union of the per-environment lists, that is, the tags of all records. |
| App.FacetsIgnoreOrder | infra_inventory/app.py:61-72 | Two snapshots with the same records, in any order and with any repetition, give the same stage and tag lists. |
| App.AscendingUnique | infra_inventory/app.py:71-72 | Two strictly ascending lists of the same strings are equal, so a facet list is determined by its contents. |
| App.TwoEnvironmentScenario | infra_inventory/app.py:59-87 | Records in `prod` tagged `a` and in `staging` tagged `b`: the `'all'` tag list is `["a", "b"]` and the `prod` list is `["a"]`. |
| App.Environments | infra_inventory/app.py:92 | The environment list is strictly ascending and holds exactly the records' environments. |
| App.GetStages | infra_inventory/app.py:131-137 | The result is strictly ascending. For `'all'` (also the default), it holds the stages of all records. Otherwise it holds the stages of that environment's records, so `[]` for an unknown one. |
| App.GetTags | infra_inventory/app.py:139-145 | The result is strictly ascending. For `'all'` (also the default), it holds the tags of all records. Otherwise it holds the tags of that environment's records, so `[]` for an unknown one. |
| App.FilterWebsites | infra_inventory/app.py:101-129 | The loop that appends matching records computes `Filter` of the snapshot and the parsed query. |
| App.FilterSelects | infra_inventory/app.py:112-127 | The filter result is an order-preserving subsequence of the input. It takes the records at a strictly increasing list of positions, and a position is taken exactly when its record matches. |
| App.FilterMembership | infra_inventory/app.py:112-127 | A record is in the result exactly when it is in the snapshot and satisfies the search, environment, stage and tag predicates. |
| App.FilterAllMatch | infra_inventory/app.py:112-127 | When every record matches, the result is the snapshot itself. |
| App.FilterUnrestricted | infra_inventory/app.py:104-124 | An empty search, plus selectors that are empty or start with a comma, returns the snapshot unchanged. |
| App.SearchMatchAt | infra_inventory/app.py:115-119 | The search matches exactly when the term is empty or occurs at some position of the lower-cased name, description or one of the tags. |
| App.SearchIgnoresCase | infra_inventory/app.py:104 | Two search strings that lower-case alike select the same records. |
| App.LeadingCommaAdmitsAll | infra_inventory/app.py:107-122 | The selector `",prod"` admits every environment. |
| App.SearchScenario | infra_inventory/app.py:112-127 | The single-site record is found by `web` but not by `site`. The domain appears only in the url, which is not searched. |
| App.Inventory.constructor | infra_inventory/app.py:19 | The snapshot starts empty. |
| App.Inventory.Load | infra_inventory/app.py:21-35 | A stored file replaces the snapshot, a file that fails to parse empties it, and a missing file keeps it. The new snapshot is returned. |
| App.Inventory.Refresh | infra_inventory/app.py:37-57 | A non-empty result of the walk replaces the snapshot wholesale. An empty result, or a walk that raises, leaves it untouched. The next refresh is scheduled exactly when the walk did not raise. |

## Left out

- HTTP requests, headers, the token and `raise_for_status`: each catalog request is an `Option`-valued oracle of `Catalog`, and `None` stands for any request failure. The server-side `filter`/`tag` parameters of the requests are assumed to be applied by the oracle.
- Flask routing, `render_template` and `jsonify`: handlers take the snapshot and the request arguments as parameters. An absent `search`/`environment`/`stage`/`tag` argument is passed as `""`. An absent `environment` of `/get_stages` and `/get_tags` is `None`, which means `'all'`.
- The JSON file: reading is an input value (`SnapshotFile`), and the save after a refresh is not modelled. Neither is the re-read of the file on every request; the handlers take the snapshot they would read.
- `threading.Timer` and `run_server`: concurrency and timing. `Refresh` only reports whether the next refresh would be scheduled.
- Logging and `config.py` (environment variables only).
- ConsulClient.MakeWebsite: a `NodeMeta`/`ServiceMeta` map that is present but lacks `env`, `stage` or `proxy_fqdn` is an error (`MetaKeyAbsent`). Python raises nothing there: it stores `None` in the record (for `url`, the text `https://None`). That would need optional record fields, and sorting `None` with strings raises later.
- App.Inventory.Refresh: because of the `MetaKeyAbsent` case above, a catalog with such an instance makes the modelled walk fail. `Refresh` then keeps the old snapshot and reports no rescheduling. Python would replace the snapshot with records holding `None` and schedule the next refresh.
- ConsulClient.MakeWebsite: an instance whose `description` key is present but null is not distinguished from an absent one.
- Text.Lower: only ASCII letters are lower-cased. Python's full Unicode case mapping is not modelled.
- Order.Sorted: strings are ordered by code point, as Python does. No locale is involved.
- The mutation of the instance's own tag list by `remove` (the record shares that list): the model returns a new sequence, because nothing reads the instance afterwards.
- Duplicate service names within one datacenter's services map cannot occur (it is a JSON object). The model takes the services as a sequence of names in the map's order.
