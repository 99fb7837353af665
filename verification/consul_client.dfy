/** The Consul catalog client and the extraction of website records from it
    (infra_inventory/consul_client.py).

    The three HTTP getters are not modelled as I/O: a `Catalog` value holds
    what each of them would answer, `None` standing for the request error
    they turn into `None`. `GetWebsitesFromConsul` walks that catalog as the
    source does (datacenters, then services, then instances, with its
    `continue`s and its early `return`), and every Python exception the walk
    can raise becomes an `Err(Fault)`, as does a missing metadata key. */
module ConsulClient {
  import opened Wrappers
  import Text

  /** The tag that marks reverse-proxied services; also the server-side filter of the getters. */
  const Marker := "ssl-proxy-backend"
  /** Consul's own service, skipped by the walk. */
  const Bootstrap := "consul"
  /** The proxy-management service whose records are named after the domain they proxy. */
  const ProxyManager := "caddy-git"

  /** A JSON object of string values (`NodeMeta`, `ServiceMeta`). */
  type Meta = map<string, string>

  /** One instance object of `/v1/catalog/service/<name>`; `None` is a key the object lacks. */
  datatype Instance = Instance(
    service: Option<string>,            // "Service"
    nodeMeta: Option<Meta>,             // "NodeMeta"
    serviceMeta: Option<Meta>,          // "ServiceMeta"
    description: Option<string>,        // "description"
    serviceTags: Option<seq<string>>)   // "ServiceTags"

  /** What the three getters answer: `get_datacenters()`,
      `get_services(dc)` (the names of the returned dictionary, in its
      order) and `get_service_instances(name, dc)`. */
  datatype Catalog = Catalog(
    datacenters: Option<seq<string>>,
    services: string -> Option<seq<string>>,
    instances: (string, string) -> Option<seq<Instance>>)

  /** One inventory record: the dictionary built at consul_client.py:88-95. */
  datatype Website = Website(
    name: string,
    environment: string,
    stage: string,
    url: string,
    description: string,
    tags: seq<string>)

  /** What aborts the walk: the exceptions Python raises, and `MetaKeyAbsent`.
      Python raises nothing for a key missing from a present metadata
      object; it stores `None` in the record. The record's fields are
      strings here, so the model turns that case into a fault instead. */
  datatype Fault =
    | ServicesUnavailable(dc: string)  // len(None) when get_services failed
    | NodeMetaAbsent                   // None.get(...) on a missing NodeMeta
    | ServiceMetaAbsent                // None.get(...) on a missing ServiceMeta
    | MetaKeyAbsent(key: string)       // env, stage or proxy_fqdn missing: Python stores None
    | TagsAbsent                       // None.remove(...) on a missing ServiceTags
    | MarkerAbsent                     // list.remove raising ValueError

  type Records = Result<seq<Website>, Fault>

  /** Run `a`, then `b`, concatenating what they emit; the first fault wins. */
  function Concat(a: Records, b: Records): Records
  {
    match a
    case Err(e) => Err(e)
    case Ok(x) =>
      match b
      case Err(e) => Err(e)
      case Ok(y) => Ok(x + y)
  }

  lemma ConcatAssociative(a: Records, b: Records, c: Records)
    ensures Concat(Concat(a, b), c) == Concat(a, Concat(b, c))
  {
    if a.Ok? && b.Ok? && c.Ok? {
      assert (a.value + b.value) + c.value == a.value + (b.value + c.value);
    }
  }

  lemma ConcatEmpty(b: Records)
    ensures Concat(Ok([]), b) == b
  {
    if b.Ok? {
      assert [] + b.value == b.value;
    }
  }

  /** The name an instance is listed under: its `Service` field, falling
      back to the service name; `caddy-git` instances are renamed after the
      domain they proxy. */
  function SiteName(serviceName: string, inst: Instance): Result<string, Fault>
  {
    var name := inst.service.GetOr(serviceName);
    if name != ProxyManager then Ok(name)
    else if inst.serviceMeta.None? then Err(ServiceMetaAbsent)
    else if "proxy_fqdn" !in inst.serviceMeta.value then Err(MetaKeyAbsent("proxy_fqdn"))
    else Ok(inst.serviceMeta.value["proxy_fqdn"])
  }

  /** The record built from one instance of service `serviceName` (consul_client.py:84-96). */
  function MakeWebsite(serviceName: string, inst: Instance): (r: Result<Website, Fault>)
    ensures r.Ok? <==>
      && SiteName(serviceName, inst).Ok?
      && inst.nodeMeta.Some? && "env" in inst.nodeMeta.value && "stage" in inst.nodeMeta.value
      && inst.serviceMeta.Some? && "proxy_fqdn" in inst.serviceMeta.value
      && inst.serviceTags.Some? && Marker in inst.serviceTags.value
    ensures r.Ok? ==>
      && r.value.name == (if inst.service.GetOr(serviceName) == ProxyManager
                          then inst.serviceMeta.value["proxy_fqdn"]
                          else inst.service.GetOr(serviceName))
      && r.value.environment == inst.nodeMeta.value["env"]
      && r.value.stage == inst.nodeMeta.value["stage"]
      && r.value.url == "https://" + inst.serviceMeta.value["proxy_fqdn"]
      && r.value.description == (if inst.description.Some? then inst.description.value else "")
      && |r.value.tags| == |inst.serviceTags.value| - 1
      && multiset(r.value.tags) == multiset(inst.serviceTags.value) - multiset{Marker}
    ensures r.Ok? ==>
      var tags := inst.serviceTags.value;
      exists i :: 0 <= i < |tags| && tags[i] == Marker && Marker !in tags[..i] &&
        r.value.tags == tags[..i] + tags[i + 1..]
  {
    match SiteName(serviceName, inst)
    case Err(e) => Err(e)
    case Ok(name) =>
      if inst.nodeMeta.None? then Err(NodeMetaAbsent)
      else if "env" !in inst.nodeMeta.value then Err(MetaKeyAbsent("env"))
      else if "stage" !in inst.nodeMeta.value then Err(MetaKeyAbsent("stage"))
      else if inst.serviceMeta.None? then Err(ServiceMetaAbsent)
      else if "proxy_fqdn" !in inst.serviceMeta.value then Err(MetaKeyAbsent("proxy_fqdn"))
      else if inst.serviceTags.None? then Err(TagsAbsent)
      else
        match Text.RemoveFirst(inst.serviceTags.value, Marker)
        case None => Err(MarkerAbsent)
        case Some(tags) =>
          Ok(Website(
            name,
            inst.nodeMeta.value["env"],
            inst.nodeMeta.value["stage"],
            "https://" + inst.serviceMeta.value["proxy_fqdn"],
            inst.description.GetOr(""),
            tags))
  }

  /** The records of one service's instances, in order (the innermost loop). */
  function InstanceRecords(serviceName: string, insts: seq<Instance>): Records
    decreases |insts|
  {
    if insts == [] then Ok([])
    else
      var first := match MakeWebsite(serviceName, insts[0])
        case Err(e) => Err(e)
        case Ok(w) => Ok([w]);
      Concat(first, InstanceRecords(serviceName, insts[1..]))
  }

  /** The records of the services `names` of datacenter `dc` (the middle
      loop): `consul` is skipped, and so is a service whose instances are
      `None` or empty. */
  function ServiceRecords(cat: Catalog, dc: string, names: seq<string>): Records
    decreases |names|
  {
    if names == [] then Ok([])
    else
      var rest := ServiceRecords(cat, dc, names[1..]);
      if names[0] == Bootstrap then rest
      else
        match cat.instances(names[0], dc)
        case None => rest
        case Some(insts) =>
          if insts == [] then rest
          else Concat(InstanceRecords(names[0], insts), rest)
  }

  /** The records of the datacenters `dcs` (the outer loop): a failed
      services request crashes, and an empty services map ends the whole
      walk with what was gathered so far. */
  function DcRecords(cat: Catalog, dcs: seq<string>): Records
    decreases |dcs|
  {
    if dcs == [] then Ok([])
    else
      match cat.services(dcs[0])
      case None => Err(ServicesUnavailable(dcs[0]))
      case Some(names) =>
        if names == [] then Ok([])
        else Concat(ServiceRecords(cat, dcs[0], names), DcRecords(cat, dcs[1..]))
  }

  /** The outcome of `get_websites_from_consul`. */
  function Extract(cat: Catalog): Records
  {
    match cat.datacenters
    case None => Ok([])
    case Some(dcs) => if dcs == [] then Ok([]) else DcRecords(cat, dcs)
  }

  /** `get_websites_from_consul` (consul_client.py:57-100): the nested walk
      over datacenters, services and instances. */
  lemma InstanceStep(ws: seq<Website>, serviceName: string, insts: seq<Instance>, k: nat, after: Records)
    requires k < |insts|
    ensures var w := MakeWebsite(serviceName, insts[k]);
      Concat(Ok(ws), Concat(InstanceRecords(serviceName, insts[k..]), after)) ==
        if w.Err? then Err(w.error)
        else Concat(Ok(ws + [w.value]), Concat(InstanceRecords(serviceName, insts[k + 1..]), after))
  {
    assert insts[k..][1..] == insts[k + 1..];
    var w := MakeWebsite(serviceName, insts[k]);
    if w.Ok? {
      var rest := InstanceRecords(serviceName, insts[k + 1..]);
      ConcatAssociative(Ok([w.value]), rest, after);
      ConcatAssociative(Ok(ws), Ok([w.value]), Concat(rest, after));
    }
  }

  lemma ServiceStep(cat: Catalog, dc: string, names: seq<string>, j: nat, ws: seq<Website>, later: Records)
    requires j < |names|
    ensures var insts := cat.instances(names[j], dc);
      Concat(Ok(ws), Concat(ServiceRecords(cat, dc, names[j..]), later)) ==
        if names[j] == Bootstrap || insts.None? || insts.value == []
        then Concat(Ok(ws), Concat(ServiceRecords(cat, dc, names[j + 1..]), later))
        else Concat(Ok(ws), Concat(InstanceRecords(names[j], insts.value), Concat(ServiceRecords(cat, dc, names[j + 1..]), later)))
  {
    assert names[j..][1..] == names[j + 1..];
    var insts := cat.instances(names[j], dc);
    if !(names[j] == Bootstrap || insts.None? || insts.value == []) {
      ConcatAssociative(InstanceRecords(names[j], insts.value), ServiceRecords(cat, dc, names[j + 1..]), later);
    }
  }

  lemma DcStep(cat: Catalog, dcs: seq<string>, i: nat, ws: seq<Website>)
    requires i < |dcs|
    ensures var services := cat.services(dcs[i]);
      Concat(Ok(ws), DcRecords(cat, dcs[i..])) ==
        if services.None? then Err(ServicesUnavailable(dcs[i]))
        else if services.value == [] then Ok(ws)
        else Concat(Ok(ws), Concat(ServiceRecords(cat, dcs[i], services.value), DcRecords(cat, dcs[i + 1..])))
  {
    assert dcs[i..][1..] == dcs[i + 1..];
    assert ws + [] == ws;
  }

  /** `get_websites_from_consul` (consul_client.py:57-100): the nested walk
      over datacenters, services and instances. */
  method GetWebsitesFromConsul(cat: Catalog) returns (r: Records)
    ensures r == Extract(cat)
  {
    var websites: seq<Website> := [];
    var dcs := cat.datacenters;
    if dcs.None? || dcs.value == [] {
      return Ok(websites);
    }
    var i := 0;
    assert dcs.value[i..] == dcs.value;
    ConcatEmpty(Extract(cat));
    while i < |dcs.value|
      invariant 0 <= i <= |dcs.value|
      invariant Extract(cat) == Concat(Ok(websites), DcRecords(cat, dcs.value[i..]))
    {
      var dc := dcs.value[i];
      var services := cat.services(dc);
      DcStep(cat, dcs.value, i, websites);
      if services.None? {
        return Err(ServicesUnavailable(dc));
      }
      if services.value == [] {
        return Ok(websites);
      }
      ghost var later := DcRecords(cat, dcs.value[i + 1..]);
      var names := services.value;
      var j := 0;
      assert names[j..] == names;
      while j < |names|
        invariant 0 <= j <= |names|
        invariant Extract(cat) == Concat(Ok(websites), Concat(ServiceRecords(cat, dc, names[j..]), later))
      {
        var serviceName := names[j];
        ServiceStep(cat, dc, names, j, websites, later);
        if serviceName == Bootstrap {
          j := j + 1;
          continue;
        }
        var instances := cat.instances(serviceName, dc);
        if instances.None? || instances.value == [] {
          j := j + 1;
          continue;
        }
        ghost var after := Concat(ServiceRecords(cat, dc, names[j + 1..]), later);
        var insts := instances.value;
        var k := 0;
        assert insts[k..] == insts;
        while k < |insts|
          invariant 0 <= k <= |insts|
          invariant Extract(cat) == Concat(Ok(websites), Concat(InstanceRecords(serviceName, insts[k..]), after))
        {
          InstanceStep(websites, serviceName, insts, k, after);
          var website := MakeWebsite(serviceName, insts[k]);
          if website.Err? {
            return Err(website.error);
          }
          websites := websites + [website.value];
          k := k + 1;
        }
        ConcatEmpty(after);
        j := j + 1;
      }
      ConcatEmpty(later);
      i := i + 1;
    }
    assert websites + [] == websites;
    return Ok(websites);
  }

  // ---------------------------------------------------------------------
  // Properties of the walk

  /** No datacenter list (the request failed) or an empty one: no records. */
  lemma NoDatacentersNoRecords(cat: Catalog)
    requires cat.datacenters.None? || cat.datacenters == Some([])
    ensures Extract(cat) == Ok([])
  {
  }

  lemma {:induction false} ServiceRecordsIgnoreBootstrap(cat: Catalog, other: Catalog, dc: string, names: seq<string>)
    requires forall s, d :: s != Bootstrap ==> cat.instances(s, d) == other.instances(s, d)
    ensures ServiceRecords(cat, dc, names) == ServiceRecords(other, dc, names)
    decreases |names|
  {
    if names != [] {
      ServiceRecordsIgnoreBootstrap(cat, other, dc, names[1..]);
    }
  }

  lemma {:induction false} DcRecordsIgnoreBootstrap(cat: Catalog, other: Catalog, dcs: seq<string>)
    requires forall d :: cat.services(d) == other.services(d)
    requires forall s, d :: s != Bootstrap ==> cat.instances(s, d) == other.instances(s, d)
    ensures DcRecords(cat, dcs) == DcRecords(other, dcs)
    decreases |dcs|
  {
    if dcs != [] {
      DcRecordsIgnoreBootstrap(cat, other, dcs[1..]);
      if cat.services(dcs[0]).Some? {
        ServiceRecordsIgnoreBootstrap(cat, other, dcs[0], cat.services(dcs[0]).value);
      }
    }
  }

  /** The `consul` service never contributes: its instances are never even
      requested, so whatever the catalog holds for it, the outcome is the same. */
  lemma BootstrapNeverContributes(cat: Catalog, other: Catalog)
    requires cat.datacenters == other.datacenters
    requires forall d :: cat.services(d) == other.services(d)
    requires forall s, d :: s != Bootstrap ==> cat.instances(s, d) == other.instances(s, d)
    ensures Extract(cat) == Extract(other)
  {
    if cat.datacenters.Some? {
      DcRecordsIgnoreBootstrap(cat, other, cat.datacenters.value);
    }
  }

  /** A skipped service (`consul`, or one whose instances are `None` or empty)
      contributes nothing, and the walk goes on with the next service. */
  lemma {:induction false} SkippedServiceContributesNothing(cat: Catalog, dc: string, pre: seq<string>, name: string, post: seq<string>)
    requires name == Bootstrap || cat.instances(name, dc).None? || cat.instances(name, dc) == Some([])
    ensures ServiceRecords(cat, dc, pre + [name] + post) == ServiceRecords(cat, dc, pre + post)
    decreases |pre|
  {
    if pre == [] {
      assert pre + [name] + post == [name] + post;
      assert pre + post == post;
      assert ([name] + post)[1..] == post;
    } else {
      assert (pre + [name] + post)[1..] == pre[1..] + [name] + post;
      assert (pre + post)[1..] == pre[1..] + post;
      SkippedServiceContributesNothing(cat, dc, pre[1..], name, post);
    }
  }

  lemma {:induction false} EmptyServicesStopDcRecords(cat: Catalog, pre: seq<string>, dc: string, post: seq<string>)
    requires cat.services(dc) == Some([])
    ensures DcRecords(cat, pre + [dc] + post) == DcRecords(cat, pre)
    decreases |pre|
  {
    if pre != [] {
      assert (pre + [dc] + post)[1..] == pre[1..] + [dc] + post;
      EmptyServicesStopDcRecords(cat, pre[1..], dc, post);
    }
  }

  /** An empty services map ends the walk: the records of the datacenters
      before it are returned and the datacenters after it are never visited. */
  lemma EmptyServicesEndWalk(cat: Catalog, pre: seq<string>, dc: string, post: seq<string>)
    requires cat.datacenters == Some(pre + [dc] + post)
    requires cat.services(dc) == Some([])
    ensures Extract(cat) == DcRecords(cat, pre)
  {
    EmptyServicesStopDcRecords(cat, pre, dc, post);
  }

  lemma {:induction false} UnavailableServicesCrashDcRecords(cat: Catalog, pre: seq<string>, dc: string, post: seq<string>)
    requires cat.services(dc).None?
    requires forall d :: d in pre ==> cat.services(d).Some? && cat.services(d).value != []
    requires DcRecords(cat, pre).Ok?
    ensures DcRecords(cat, pre + [dc] + post) == Err(ServicesUnavailable(dc))
    decreases |pre|
  {
    if pre != [] {
      assert (pre + [dc] + post)[1..] == pre[1..] + [dc] + post;
      UnavailableServicesCrashDcRecords(cat, pre[1..], dc, post);
    }
  }

  /** A failed services request is not skipped: once the walk reaches that
      datacenter, `len(None)` aborts it, whatever the later datacenters hold. */
  lemma UnavailableServicesAbortWalk(cat: Catalog, pre: seq<string>, dc: string, post: seq<string>)
    requires cat.datacenters == Some(pre + [dc] + post)
    requires cat.services(dc).None?
    requires forall d :: d in pre ==> cat.services(d).Some? && cat.services(d).value != []
    requires DcRecords(cat, pre).Ok?
    ensures Extract(cat) == Err(ServicesUnavailable(dc))
  {
    UnavailableServicesCrashDcRecords(cat, pre, dc, post);
  }

  // ---------------------------------------------------------------------
  // One record per visited instance, in visiting order

  /** An instance the walk reaches, with the name of the service it was listed under. */
  datatype Visit = Visit(serviceName: string, instance: Instance)

  /** The instances of the services `names` that the walk visits, in order. */
  function ServiceVisits(cat: Catalog, dc: string, names: seq<string>): seq<Visit>
    decreases |names|
  {
    if names == [] then []
    else
      var rest := ServiceVisits(cat, dc, names[1..]);
      var insts := cat.instances(names[0], dc);
      if names[0] == Bootstrap || insts.None? then rest
      else seq(|insts.value|, k requires 0 <= k < |insts.value| => Visit(names[0], insts.value[k])) + rest
  }

  /** Every datacenter the walk reaches answers its services request. The
      walk reaches the datacenters up to and including the first one whose
      services map is empty; the ones after it are never asked. */
  predicate ServicesAnswered(cat: Catalog, dcs: seq<string>)
    decreases |dcs|
  {
    dcs == [] ||
    (cat.services(dcs[0]).Some? && (cat.services(dcs[0]).value == [] || ServicesAnswered(cat, dcs[1..])))
  }

  /** The instances the walk visits in the datacenters `dcs`, in order; it
      stops at the first datacenter whose services request fails or whose
      services map is empty. */
  function DcVisits(cat: Catalog, dcs: seq<string>): seq<Visit>
    decreases |dcs|
  {
    if dcs == [] then []
    else
      match cat.services(dcs[0])
      case None => []
      case Some(names) =>
        if names == [] then [] else ServiceVisits(cat, dcs[0], names) + DcVisits(cat, dcs[1..])
  }

  /** One record per visit, in order; the first instance that cannot be turned into a record aborts. */
  function RecordsOf(vs: seq<Visit>): Records
    decreases |vs|
  {
    if vs == [] then Ok([])
    else
      var first := match MakeWebsite(vs[0].serviceName, vs[0].instance)
        case Err(e) => Err(e)
        case Ok(w) => Ok([w]);
      Concat(first, RecordsOf(vs[1..]))
  }

  /** A visit that yields no record makes `RecordsOf` fail. */
  lemma {:induction false} RecordsOfFails(vs: seq<Visit>, k: nat)
    requires k < |vs| && MakeWebsite(vs[k].serviceName, vs[k].instance).Err?
    ensures RecordsOf(vs).Err?
    decreases k
  {
    if k > 0 {
      assert vs[1..][k - 1] == vs[k];
      RecordsOfFails(vs[1..], k - 1);
    }
  }

  /** When every visit yields a record, `RecordsOf` succeeds. */
  lemma {:induction false} RecordsOfSucceeds(vs: seq<Visit>)
    requires forall k :: 0 <= k < |vs| ==> MakeWebsite(vs[k].serviceName, vs[k].instance).Ok?
    ensures RecordsOf(vs).Ok?
    decreases |vs|
  {
    if vs != [] {
      assert MakeWebsite(vs[0].serviceName, vs[0].instance).Ok?;
      assert forall k :: 0 <= k < |vs[1..]| ==> vs[1..][k] == vs[k + 1];
      RecordsOfSucceeds(vs[1..]);
    }
  }

  /** A successful `RecordsOf` holds one record per visit. */
  lemma {:induction false} RecordsOfLength(vs: seq<Visit>)
    requires RecordsOf(vs).Ok?
    ensures |RecordsOf(vs).value| == |vs|
    decreases |vs|
  {
    if vs != [] {
      RecordsOfLength(vs[1..]);
    }
  }

  /** A successful `RecordsOf` holds, at position `k`, the record built from visit `k`. */
  lemma {:induction false} RecordsOfAt(vs: seq<Visit>, k: nat)
    requires RecordsOf(vs).Ok? && k < |vs|
    ensures k < |RecordsOf(vs).value|
    ensures MakeWebsite(vs[k].serviceName, vs[k].instance) == Ok(RecordsOf(vs).value[k])
    decreases k
  {
    var rest := vs[1..];
    var first := MakeWebsite(vs[0].serviceName, vs[0].instance);
    assert first.Ok? && RecordsOf(rest).Ok?;
    assert RecordsOf(vs).value == [first.value] + RecordsOf(rest).value;
    if k > 0 {
      assert rest[k - 1] == vs[k];
      RecordsOfAt(rest, k - 1);
    }
  }

  /** `RecordsOf` succeeds exactly when every visit yields a record, and then
      record `k` is the one built from visit `k`. */
  lemma RecordsOfExact(vs: seq<Visit>)
    ensures RecordsOf(vs).Ok? <==> forall k :: 0 <= k < |vs| ==> MakeWebsite(vs[k].serviceName, vs[k].instance).Ok?
    ensures RecordsOf(vs).Ok? ==>
      && |RecordsOf(vs).value| == |vs|
      && forall k :: 0 <= k < |vs| ==> MakeWebsite(vs[k].serviceName, vs[k].instance) == Ok(RecordsOf(vs).value[k])
  {
    if forall k :: 0 <= k < |vs| ==> MakeWebsite(vs[k].serviceName, vs[k].instance).Ok? {
      RecordsOfSucceeds(vs);
      RecordsOfLength(vs);
      forall k | 0 <= k < |vs|
        ensures MakeWebsite(vs[k].serviceName, vs[k].instance) == Ok(RecordsOf(vs).value[k])
      {
        RecordsOfAt(vs, k);
      }
    } else {
      var k :| 0 <= k < |vs| && !MakeWebsite(vs[k].serviceName, vs[k].instance).Ok?;
      RecordsOfFails(vs, k);
    }
  }

  lemma {:induction false} RecordsOfAppend(a: seq<Visit>, b: seq<Visit>)
    ensures RecordsOf(a + b) == Concat(RecordsOf(a), RecordsOf(b))
    decreases |a|
  {
    if a == [] {
      assert a + b == b;
      ConcatEmpty(RecordsOf(b));
    } else {
      assert (a + b)[1..] == a[1..] + b;
      RecordsOfAppend(a[1..], b);
      var first := match MakeWebsite(a[0].serviceName, a[0].instance)
        case Err(e) => Err(e)
        case Ok(w) => Ok([w]);
      ConcatAssociative(first, RecordsOf(a[1..]), RecordsOf(b));
    }
  }

  lemma {:induction false} InstanceRecordsAreVisits(serviceName: string, insts: seq<Instance>)
    ensures InstanceRecords(serviceName, insts) ==
      RecordsOf(seq(|insts|, k requires 0 <= k < |insts| => Visit(serviceName, insts[k])))
    decreases |insts|
  {
    if insts != [] {
      InstanceRecordsAreVisits(serviceName, insts[1..]);
      var vs := seq(|insts|, k requires 0 <= k < |insts| => Visit(serviceName, insts[k]));
      assert vs[1..] == seq(|insts[1..]|, k requires 0 <= k < |insts[1..]| => Visit(serviceName, insts[1..][k]));
    }
  }

  lemma {:induction false} ServiceRecordsAreVisits(cat: Catalog, dc: string, names: seq<string>)
    ensures ServiceRecords(cat, dc, names) == RecordsOf(ServiceVisits(cat, dc, names))
    decreases |names|
  {
    if names != [] {
      ServiceRecordsAreVisits(cat, dc, names[1..]);
      var insts := cat.instances(names[0], dc);
      if names[0] != Bootstrap && insts.Some? {
        var vs := seq(|insts.value|, k requires 0 <= k < |insts.value| => Visit(names[0], insts.value[k]));
        InstanceRecordsAreVisits(names[0], insts.value);
        RecordsOfAppend(vs, ServiceVisits(cat, dc, names[1..]));
        if insts.value == [] {
          assert vs == [];
          ConcatEmpty(RecordsOf(ServiceVisits(cat, dc, names[1..])));
        }
      }
    }
  }

  lemma {:induction false} DcRecordsAreVisits(cat: Catalog, dcs: seq<string>)
    requires ServicesAnswered(cat, dcs)
    ensures DcRecords(cat, dcs) == RecordsOf(DcVisits(cat, dcs))
    decreases |dcs|
  {
    if dcs != [] && cat.services(dcs[0]).value != [] {
      DcRecordsAreVisits(cat, dcs[1..]);
      ServiceRecordsAreVisits(cat, dcs[0], cat.services(dcs[0]).value);
      RecordsOfAppend(ServiceVisits(cat, dcs[0], cat.services(dcs[0]).value), DcVisits(cat, dcs[1..]));
    }
  }

  /** A services request that fails in a datacenter the walk reaches makes the walk fail. */
  lemma {:induction false} DcRecordsUnanswered(cat: Catalog, dcs: seq<string>)
    requires !ServicesAnswered(cat, dcs)
    ensures DcRecords(cat, dcs).Err?
    decreases |dcs|
  {
    if cat.services(dcs[0]).Some? {
      DcRecordsUnanswered(cat, dcs[1..]);
    }
  }

  /** Exactly one record per visited instance, in datacenter, then service,
      then instance order: the walk succeeds exactly when every datacenter
      it reaches answers its services request and every visited instance
      yields a record, and record `k` is then the one built from the `k`-th
      visited instance. */
  lemma OneRecordPerInstance(cat: Catalog, dcs: seq<string>)
    requires cat.datacenters == Some(dcs)
    ensures var vs := DcVisits(cat, dcs);
      && (Extract(cat).Ok? <==>
            ServicesAnswered(cat, dcs) && forall k :: 0 <= k < |vs| ==> MakeWebsite(vs[k].serviceName, vs[k].instance).Ok?)
      && (Extract(cat).Ok? ==>
            && |Extract(cat).value| == |vs|
            && forall k :: 0 <= k < |vs| ==> MakeWebsite(vs[k].serviceName, vs[k].instance) == Ok(Extract(cat).value[k]))
  {
    if ServicesAnswered(cat, dcs) {
      DcRecordsAreVisits(cat, dcs);
      RecordsOfExact(DcVisits(cat, dcs));
    } else {
      DcRecordsUnanswered(cat, dcs);
    }
  }

  /** The walk never reaches a datacenter after an empty services map, so a
      failed services request there does not matter: one empty datacenter
      followed by an unanswered one gives no records and no fault. */
  lemma EmptyThenUnanswered(cat: Catalog, d1: string, d2: string)
    requires cat.datacenters == Some([d1, d2])
    requires cat.services(d1) == Some([]) && cat.services(d2).None?
    ensures ServicesAnswered(cat, [d1, d2])
    ensures Extract(cat) == Ok([])
  {
  }

  // ---------------------------------------------------------------------
  // The marker tag

  /** A marker that occurs once is gone from the record's tags. */
  lemma MarkerStripped(serviceName: string, inst: Instance)
    requires MakeWebsite(serviceName, inst).Ok?
    requires multiset(inst.serviceTags.value)[Marker] == 1
    ensures Marker !in MakeWebsite(serviceName, inst).value.tags
  {
    var tags := MakeWebsite(serviceName, inst).value.tags;
    assert Marker in tags <==> Marker in multiset(tags);
  }

  /** `list.remove` deletes only the first marker: an instance tagged twice
      keeps one marker in its record. */
  lemma DuplicateMarkerSurvives()
    ensures var inst := Instance(None, Some(map["env" := "prod", "stage" := "live"]),
                                 Some(map["proxy_fqdn" := "a.example.com"]), None, Some([Marker, Marker]));
      MakeWebsite("web", inst).Ok? && MakeWebsite("web", inst).value.tags == [Marker]
  {
    var tags := [Marker, Marker];
    assert Text.IndexOf(tags, Marker) == 0;
    assert tags[1..] == [Marker];
  }

  lemma MarkerBlueRemoved()
    ensures Text.RemoveFirst([Marker, "blue"], Marker) == Some(["blue"])
  {
    assert Text.IndexOf([Marker, "blue"], Marker) == 0;
    assert [Marker, "blue"][..0] + [Marker, "blue"][1..] == ["blue"];
  }

  /** What `MakeWebsite` reads from the instance of the single-site scenario. */
  lemma SingleSiteFields(inst: Instance)
    requires inst == Instance(None, Some(map["env" := "prod", "stage" := "live"]),
                              Some(map["proxy_fqdn" := "site.example.com"]), None, Some([Marker, "blue"]))
    ensures SiteName("web", inst) == Ok("web")
    ensures inst.nodeMeta.Some? && "env" in inst.nodeMeta.value && "stage" in inst.nodeMeta.value
    ensures inst.nodeMeta.value["env"] == "prod" && inst.nodeMeta.value["stage"] == "live"
    ensures inst.serviceMeta.Some? && "proxy_fqdn" in inst.serviceMeta.value
    ensures "https://" + inst.serviceMeta.value["proxy_fqdn"] == "https://site.example.com"
  {
    assert "web" != ProxyManager by { assert |"web"| != |ProxyManager|; }
    assert "env" != "stage" by { assert |"env"| != |"stage"|; }
  }

  /** The instance of the single-site scenario makes the record `web`, tagged `blue` only. */
  lemma SingleSiteRecord(inst: Instance)
    requires inst == Instance(None, Some(map["env" := "prod", "stage" := "live"]),
                              Some(map["proxy_fqdn" := "site.example.com"]), None, Some([Marker, "blue"]))
    ensures MakeWebsite("web", inst) == Ok(Website("web", "prod", "live", "https://site.example.com", "", ["blue"]))
  {
    MarkerBlueRemoved();
    SingleSiteFields(inst);
  }

  /** A catalog with a single datacenter, a single service and a single
      instance yields exactly the record built from that instance. */
  lemma SingleInstanceCatalog(cat: Catalog, dc: string, name: string, inst: Instance, w: Website)
    requires cat.datacenters == Some([dc])
    requires cat.services(dc) == Some([name]) && name != Bootstrap
    requires cat.instances(name, dc) == Some([inst])
    requires MakeWebsite(name, inst) == Ok(w)
    ensures Extract(cat) == Ok([w])
  {
    assert [inst][1..] == [];
    assert InstanceRecords(name, [inst]) == Ok([w] + []);
    assert [w] + [] == [w];
    assert ServiceRecords(cat, dc, [name]) == Concat(Ok([w]), Ok([]));
    assert DcRecords(cat, [dc]) == Concat(Ok([w]), Ok([]));
  }

  /** A catalog with one datacenter `dc1`, one service `web` and one instance
      (env `prod`, stage `live`, proxied domain `site.example.com`, tags
      marker and `blue`, no description) yields exactly one record. */
  lemma SingleSiteScenario()
    ensures
      var inst := Instance(None, Some(map["env" := "prod", "stage" := "live"]),
                           Some(map["proxy_fqdn" := "site.example.com"]), None, Some([Marker, "blue"]));
      var cat := Catalog(Some(["dc1"]),
                         d => if d == "dc1" then Some(["web"]) else None,
                         (s, d) => if s == "web" && d == "dc1" then Some([inst]) else None);
      Extract(cat) == Ok([Website("web", "prod", "live", "https://site.example.com", "", ["blue"])])
  {
    var inst := Instance(None, Some(map["env" := "prod", "stage" := "live"]),
                         Some(map["proxy_fqdn" := "site.example.com"]), None, Some([Marker, "blue"]));
    var cat := Catalog(Some(["dc1"]),
                       d => if d == "dc1" then Some(["web"]) else None,
                       (s, d) => if s == "web" && d == "dc1" then Some([inst]) else None);
    SingleSiteRecord(inst);
    assert "web" != Bootstrap by { assert |"web"| != |Bootstrap|; }
    SingleInstanceCatalog(cat, "dc1", "web", inst, Website("web", "prod", "live", "https://site.example.com", "", ["blue"]));
  }
}
