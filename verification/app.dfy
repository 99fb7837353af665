/** The query side of the inventory (infra_inventory/app.py): the facet
    lists of `get_environment_filters`, the environment list of the index
    page, the stage and tag lookups, the `/filter` query, and the
    in-memory snapshot that `load_websites` and
    `refresh_websites_from_consul` replace. Flask routing, templates, JSON
    files and the refresh timer are not modelled; each handler's logic
    takes the snapshot and the request arguments as parameters. */
module App {
  import opened Wrappers
  import Order
  import Text
  import ConsulClient

  type Website = ConsulClient.Website

  /** The synthetic environment holding every stage (tag) of every environment. */
  const AllBucket := "all"

  // ---------------------------------------------------------------------
  // get_environment_filters

  /** A `defaultdict(set)`: environment -> values gathered so far; a key
      exists once something was added under it. */
  type Buckets = map<string, set<string>>

  /** `buckets[key].add(value)`. */
  function Add(b: Buckets, key: string, value: string): Buckets
  {
    b[key := (if key in b then b[key] else {}) + {value}]
  }

  /** `for v in values: buckets[key].add(v)`. */
  function AddEach(b: Buckets, key: string, values: seq<string>): Buckets
    decreases |values|
  {
    if values == [] then b
    else Add(AddEach(b, key, values[..|values| - 1]), key, values[|values| - 1])
  }

  /** `env_stages` after the loop over `ws` (app.py:64-66). */
  function StageBuckets(ws: seq<Website>): Buckets
    decreases |ws|
  {
    if ws == [] then map[]
    else
      var site := ws[|ws| - 1];
      Add(StageBuckets(ws[..|ws| - 1]), site.environment, site.stage)
  }

  /** `env_tags` after the loop over `ws` (app.py:64-68). */
  function TagBuckets(ws: seq<Website>): Buckets
    decreases |ws|
  {
    if ws == [] then map[]
    else
      var site := ws[|ws| - 1];
      AddEach(TagBuckets(ws[..|ws| - 1]), site.environment, site.tags)
  }

  /** `{env: sorted(values) for env, values in buckets.items()}` (app.py:71-72). */
  function SortBuckets(b: Buckets): map<string, seq<string>>
  {
    map env | env in b :: Order.Sorted(b[env])
  }

  /** Everything listed under some environment of `m`. */
  function UnionOf(m: map<string, seq<string>>): set<string>
  {
    set env, x | env in m && x in m[env] :: x
  }

  /** `m` with the `'all'` bucket set to the sorted union of all its lists (app.py:75-85). */
  function WithAll(m: map<string, seq<string>>): map<string, seq<string>>
  {
    m[AllBucket := Order.Sorted(UnionOf(m))]
  }

  /** The first result of `get_environment_filters(ws)`. */
  function StageFacets(ws: seq<Website>): map<string, seq<string>>
  {
    WithAll(SortBuckets(StageBuckets(ws)))
  }

  /** The second result of `get_environment_filters(ws)`. */
  function TagFacets(ws: seq<Website>): map<string, seq<string>>
  {
    WithAll(SortBuckets(TagBuckets(ws)))
  }

  /** The environments of the records. */
  function EnvsOf(ws: seq<Website>): set<string>
  {
    set site | site in ws :: site.environment
  }

  /** The environments of the records that carry at least one tag. */
  ghost function TaggedEnvsOf(ws: seq<Website>): set<string>
  {
    set site | site in ws && site.tags != [] :: site.environment
  }

  /** The stages of the records of environment `env`. */
  ghost function StagesIn(ws: seq<Website>, env: string): set<string>
  {
    set site | site in ws && site.environment == env :: site.stage
  }

  /** The tags of the records of environment `env`. */
  ghost function TagsIn(ws: seq<Website>, env: string): set<string>
  {
    set site, tag | site in ws && site.environment == env && tag in site.tags :: tag
  }

  /** The stages of all records. */
  ghost function AllStages(ws: seq<Website>): set<string>
  {
    set site | site in ws :: site.stage
  }

  /** The tags of all records. */
  ghost function AllTags(ws: seq<Website>): set<string>
  {
    set site, tag | site in ws && tag in site.tags :: tag
  }

  /** Everything `m` holds for the keys `keys`. */
  ghost function UnionOver(m: map<string, seq<string>>, keys: set<string>): set<string>
  {
    set env, x | env in keys && env in m && x in m[env] :: x
  }

  /** Python's `set(lst)`, as a value. */
  function Elements(s: seq<string>): set<string>
  {
    set x | x in s
  }

  /** `get_environment_filters` (app.py:59-87). */
  method EnvironmentFilters(websites: seq<Website>) returns (envStages: map<string, seq<string>>, envTags: map<string, seq<string>>)
    ensures envStages == StageFacets(websites)
    ensures envTags == TagFacets(websites)
  {
    var stageSets: Buckets := map[];
    var tagSets: Buckets := map[];
    for i := 0 to |websites|
      invariant stageSets == StageBuckets(websites[..i])
      invariant tagSets == TagBuckets(websites[..i])
    {
      var site := websites[i];
      var env := site.environment;
      BucketsStep(websites, i);
      stageSets := stageSets[env := (if env in stageSets then stageSets[env] else {}) + {site.stage}];
      for j := 0 to |site.tags|
        invariant tagSets == AddEach(TagBuckets(websites[..i]), env, site.tags[..j])
      {
        AddEachStep(TagBuckets(websites[..i]), env, site.tags, j);
        tagSets := tagSets[env := (if env in tagSets then tagSets[env] else {}) + {site.tags[j]}];
      }
      assert site.tags[..|site.tags|] == site.tags;
    }
    assert websites[..|websites|] == websites;
    envStages := SortBuckets(stageSets);
    envTags := SortBuckets(tagSets);
    var allStages := UnionOfValues(envStages);
    var allTags := UnionOfValues(envTags);
    envStages := envStages[AllBucket := Order.Sorted(allStages)];
    envTags := envTags[AllBucket := Order.Sorted(allTags)];
  }

  /** One more record extends both bucket maps by that record's stage and tags. */
  lemma BucketsStep(ws: seq<Website>, i: nat)
    requires i < |ws|
    ensures StageBuckets(ws[..i + 1]) == Add(StageBuckets(ws[..i]), ws[i].environment, ws[i].stage)
    ensures TagBuckets(ws[..i + 1]) == AddEach(TagBuckets(ws[..i]), ws[i].environment, ws[i].tags)
  {
    assert ws[..i + 1][..i] == ws[..i];
  }

  /** One more value extends the bucket of `key` by that value. */
  lemma AddEachStep(b: Buckets, key: string, values: seq<string>, j: nat)
    requires j < |values|
    ensures AddEach(b, key, values[..j + 1]) == Add(AddEach(b, key, values[..j]), key, values[j])
  {
    assert values[..j + 1][..j] == values[..j];
  }

  /** `for values in m.values(): acc.update(values)` starting from an empty set. */
  method UnionOfValues(m: map<string, seq<string>>) returns (acc: set<string>)
    ensures acc == UnionOf(m)
  {
    acc := {};
    var pending := m.Keys;
    while pending != {}
      invariant pending <= m.Keys
      invariant acc == UnionOver(m, m.Keys - pending)
      decreases pending
    {
      var env :| env in pending;
      assert UnionOver(m, m.Keys - (pending - {env})) == UnionOver(m, m.Keys - pending) + Elements(m[env]);
      acc := acc + Elements(m[env]);
      pending := pending - {env};
    }
    assert m.Keys - pending == m.Keys;
  }

  // ---------------------------------------------------------------------
  // What the facet lists hold

  lemma {:induction false} AddEachExact(b: Buckets, key: string, values: seq<string>)
    ensures AddEach(b, key, values).Keys == b.Keys + (if values == [] then {} else {key})
    ensures forall env :: env in b && env != key ==> AddEach(b, key, values)[env] == b[env]
    ensures values != [] ==> AddEach(b, key, values)[key] == (if key in b then b[key] else {}) + Elements(values)
    decreases |values|
  {
    if values != [] {
      var init, last := values[..|values| - 1], values[|values| - 1];
      AddEachExact(b, key, init);
      ElementsSnoc(values);
      assert AddEach(b, key, values) == Add(AddEach(b, key, init), key, last);
      if init == [] {
        assert Elements(init) == {};
      }
    }
  }

  lemma ElementsSnoc(values: seq<string>)
    requires values != []
    ensures Elements(values) == Elements(values[..|values| - 1]) + {values[|values| - 1]}
  {
    assert values == values[..|values| - 1] + [values[|values| - 1]];
  }

  lemma {:induction false} SplitLast(ws: seq<Website>)
    requires ws != []
    ensures forall site :: site in ws <==> site in ws[..|ws| - 1] || site == ws[|ws| - 1]
  {
    assert ws == ws[..|ws| - 1] + [ws[|ws| - 1]];
  }

  lemma EnvsSnoc(ws: seq<Website>)
    requires ws != []
    ensures EnvsOf(ws) == EnvsOf(ws[..|ws| - 1]) + {ws[|ws| - 1].environment}
    ensures TaggedEnvsOf(ws) == TaggedEnvsOf(ws[..|ws| - 1]) + (if ws[|ws| - 1].tags == [] then {} else {ws[|ws| - 1].environment})
  {
    SplitLast(ws);
  }

  lemma StagesSnoc(ws: seq<Website>, env: string)
    requires ws != []
    ensures var site := ws[|ws| - 1];
      StagesIn(ws, env) == StagesIn(ws[..|ws| - 1], env) + (if site.environment == env then {site.stage} else {})
  {
    SplitLast(ws);
  }

  lemma TagsSnoc(ws: seq<Website>, env: string)
    requires ws != []
    ensures var site := ws[|ws| - 1];
      TagsIn(ws, env) == TagsIn(ws[..|ws| - 1], env) + (if site.environment == env then Elements(site.tags) else {})
  {
    SplitLast(ws);
  }

  /** Every environment of the records has a stage set, holding exactly the
      stages of that environment's records. */
  lemma {:induction false} StageBucketsExact(ws: seq<Website>)
    ensures StageBuckets(ws).Keys == EnvsOf(ws)
    ensures forall env :: env in StageBuckets(ws) ==> StageBuckets(ws)[env] == StagesIn(ws, env)
    decreases |ws|
  {
    if ws != [] {
      var init := ws[..|ws| - 1];
      StageBucketsExact(init);
      EnvsSnoc(ws);
      forall env | env in StageBuckets(ws)
        ensures StageBuckets(ws)[env] == StagesIn(ws, env)
      {
        StagesSnoc(ws, env);
      }
    }
  }

  /** An environment has a tag set exactly when one of its records carries a
      tag, and the set holds exactly the tags of that environment's records. */
  lemma {:induction false} TagBucketsExact(ws: seq<Website>)
    ensures TagBuckets(ws).Keys == TaggedEnvsOf(ws)
    ensures forall env :: env in TagBuckets(ws) ==> TagBuckets(ws)[env] == TagsIn(ws, env)
    decreases |ws|
  {
    if ws != [] {
      var init, site := ws[..|ws| - 1], ws[|ws| - 1];
      TagBucketsExact(init);
      AddEachExact(TagBuckets(init), site.environment, site.tags);
      EnvsSnoc(ws);
      forall env | env in TagBuckets(ws)
        ensures TagBuckets(ws)[env] == TagsIn(ws, env)
      {
        TagsSnoc(ws, env);
      }
    }
  }

  /** For an environment other than `'all'`: it has a stage list exactly when
      some record has it, and that list is strictly ascending and holds
      exactly the stages of its records. */
  lemma StageFacetsExact(ws: seq<Website>, env: string)
    requires env != AllBucket
    ensures env in StageFacets(ws) <==> env in EnvsOf(ws)
    ensures env in StageFacets(ws) ==>
      && Order.StrictlyAscending(StageFacets(ws)[env])
      && Elements(StageFacets(ws)[env]) == StagesIn(ws, env)
  {
    StageBucketsExact(ws);
  }

  /** For an environment other than `'all'`: it has a tag list exactly when
      one of its records carries a tag, and that list is strictly ascending
      and holds exactly the tags of its records. */
  lemma TagFacetsExact(ws: seq<Website>, env: string)
    requires env != AllBucket
    ensures env in TagFacets(ws) <==> env in TaggedEnvsOf(ws)
    ensures env in TagFacets(ws) ==>
      && Order.StrictlyAscending(TagFacets(ws)[env])
      && Elements(TagFacets(ws)[env]) == TagsIn(ws, env)
  {
    TagBucketsExact(ws);
  }

  /** What the `'all'` bucket of `WithAll(SortBuckets(b))` holds: everything in any bucket of `b`. */
  lemma AllOfSortedBuckets(b: Buckets)
    ensures Order.StrictlyAscending(WithAll(SortBuckets(b))[AllBucket])
    ensures Elements(WithAll(SortBuckets(b))[AllBucket]) == UnionOf(SortBuckets(b))
    ensures forall x :: x in UnionOf(SortBuckets(b)) <==> exists env :: env in b && x in b[env]
  {
    var perEnv := SortBuckets(b);
    var all := WithAll(perEnv)[AllBucket];
    assert all == Order.Sorted(UnionOf(perEnv));
    forall x
      ensures x in UnionOf(perEnv) <==> exists env :: env in b && x in b[env]
    {
      if x in UnionOf(perEnv) {
        var env :| env in perEnv && x in perEnv[env];
        assert x in b[env];
      }
      if exists env :: env in b && x in b[env] {
        var env :| env in b && x in b[env];
        assert x in perEnv[env];
      }
    }
  }

  /** The `'all'` stage list is strictly ascending and is the union of the
      per-environment lists (taken before `'all'` is overwritten), that is,
      the stages of all records. */
  lemma StageFacetsAll(ws: seq<Website>)
    ensures AllBucket in StageFacets(ws)
    ensures Order.StrictlyAscending(StageFacets(ws)[AllBucket])
    ensures Elements(StageFacets(ws)[AllBucket]) == UnionOf(SortBuckets(StageBuckets(ws)))
    ensures Elements(StageFacets(ws)[AllBucket]) == AllStages(ws)
  {
    var b := StageBuckets(ws);
    StageBucketsExact(ws);
    AllOfSortedBuckets(b);
    forall x | x in AllStages(ws)
      ensures x in UnionOf(SortBuckets(b))
    {
      var site :| site in ws && site.stage == x;
      assert x in StagesIn(ws, site.environment);
      assert x in b[site.environment];
    }
    forall x | x in UnionOf(SortBuckets(b))
      ensures x in AllStages(ws)
    {
      var env :| env in b && x in b[env];
      assert x in StagesIn(ws, env);
    }
  }

  /** The `'all'` tag list is strictly ascending and is the union of the
      per-environment lists (taken before `'all'` is overwritten), that is,
      the tags of all records. */
  lemma TagFacetsAll(ws: seq<Website>)
    ensures AllBucket in TagFacets(ws)
    ensures Order.StrictlyAscending(TagFacets(ws)[AllBucket])
    ensures Elements(TagFacets(ws)[AllBucket]) == UnionOf(SortBuckets(TagBuckets(ws)))
    ensures Elements(TagFacets(ws)[AllBucket]) == AllTags(ws)
  {
    var b := TagBuckets(ws);
    TagBucketsExact(ws);
    AllOfSortedBuckets(b);
    forall x | x in AllTags(ws)
      ensures x in UnionOf(SortBuckets(b))
    {
      var site :| site in ws && x in site.tags;
      assert site.environment in TaggedEnvsOf(ws);
      assert x in TagsIn(ws, site.environment);
      assert x in b[site.environment];
    }
    forall x | x in UnionOf(SortBuckets(b))
      ensures x in AllTags(ws)
    {
      var env :| env in b && x in b[env];
      assert x in TagsIn(ws, env);
    }
  }

  /** The facets depend only on which records there are, not on their order
      or repetition: two snapshots with the same records give the same lists. */
  lemma FacetsIgnoreOrder(ws1: seq<Website>, ws2: seq<Website>)
    requires forall site :: site in ws1 <==> site in ws2
    ensures StageFacets(ws1) == StageFacets(ws2)
    ensures TagFacets(ws1) == TagFacets(ws2)
  {
    StageBucketsExact(ws1);
    StageBucketsExact(ws2);
    TagBucketsExact(ws1);
    TagBucketsExact(ws2);
    assert EnvsOf(ws1) == EnvsOf(ws2);
    assert TaggedEnvsOf(ws1) == TaggedEnvsOf(ws2);
    forall env | env in StageBuckets(ws1)
      ensures StageBuckets(ws1)[env] == StageBuckets(ws2)[env]
    {
      assert StagesIn(ws1, env) == StagesIn(ws2, env);
    }
    forall env | env in TagBuckets(ws1)
      ensures TagBuckets(ws1)[env] == TagBuckets(ws2)[env]
    {
      assert TagsIn(ws1, env) == TagsIn(ws2, env);
    }
    assert StageBuckets(ws1) == StageBuckets(ws2);
    assert TagBuckets(ws1) == TagBuckets(ws2);
  }

  /** Two strictly ascending lists holding the same strings are equal. */
  lemma AscendingUnique(r1: seq<string>, r2: seq<string>)
    requires Order.StrictlyAscending(r1) && Order.StrictlyAscending(r2)
    requires Elements(r1) == Elements(r2)
    ensures r1 == r2
  {
    var s := Elements(r1);
    assert forall x :: x in r1 <==> x in s;
    assert forall x :: x in r2 <==> x in s;
    Order.SortedUnique(r1, s);
    Order.SortedUnique(r2, s);
  }

  lemma ListingAB(a: seq<string>, ab: seq<string>)
    requires a == ["a"] && ab == ["a", "b"]
    ensures Elements(a) == {"a"} && Elements(ab) == {"a", "b"}
    ensures Order.StrictlyAscending(a) && Order.StrictlyAscending(ab)
  {
    assert Order.Below(ab[0], ab[1]);
  }

  lemma TwoEnvironmentTags(ws: seq<Website>)
    requires |ws| == 2
    requires ws[0].environment == "prod" && ws[0].tags == ["a"]
    requires ws[1].environment == "staging" && ws[1].tags == ["b"]
    ensures "prod" in TaggedEnvsOf(ws)
    ensures TagsIn(ws, "prod") == {"a"}
    ensures AllTags(ws) == {"a", "b"}
  {
    assert "staging" != "prod" by { assert |"staging"| != |"prod"|; }
    assert ws[0] in ws && ws[1] in ws;
    assert "a" in ws[0].tags && "b" in ws[1].tags;
    forall t | t in TagsIn(ws, "prod")
      ensures t == "a"
    {
      var site :| site in ws && site.environment == "prod" && t in site.tags;
      var i :| 0 <= i < 2 && ws[i] == site;
    }
    forall t | t in AllTags(ws)
      ensures t == "a" || t == "b"
    {
      var site :| site in ws && t in site.tags;
      var i :| 0 <= i < 2 && ws[i] == site;
    }
  }

  /** Two records, one in `prod` tagged `a` and one in `staging` tagged `b`:
      the `'all'` tag list is `["a", "b"]` and the `prod` list is `["a"]`. */
  lemma TwoEnvironmentScenario(ws: seq<Website>)
    requires |ws| == 2
    requires ws[0].environment == "prod" && ws[0].tags == ["a"]
    requires ws[1].environment == "staging" && ws[1].tags == ["b"]
    ensures AllBucket in TagFacets(ws) && TagFacets(ws)[AllBucket] == ["a", "b"]
    ensures "prod" in TagFacets(ws) && TagFacets(ws)["prod"] == ["a"]
  {
    TwoEnvironmentTags(ws);
    assert "prod" != AllBucket by { assert |"prod"| != |AllBucket|; }
    TagFacetsExact(ws, "prod");
    TagFacetsAll(ws);
    var a, ab := ["a"], ["a", "b"];
    ListingAB(a, ab);
    AscendingUnique(TagFacets(ws)["prod"], a);
    AscendingUnique(TagFacets(ws)[AllBucket], ab);
  }

  // ---------------------------------------------------------------------
  // The index page's environment list and the stage and tag lookups

  /** `sorted(list(set(site['environment'] for site in websites)))` (app.py:92). */
  function Environments(ws: seq<Website>): (r: seq<string>)
    ensures Order.StrictlyAscending(r)
    ensures forall env :: env in r <==> exists site :: site in ws && site.environment == env
  {
    Order.Sorted(EnvsOf(ws))
  }

  /** `m.get(env, [])`. */
  function Lookup(m: map<string, seq<string>>, env: string): seq<string>
  {
    if env in m then m[env] else []
  }

  /** The `/get_stages` handler (app.py:131-137): the stage list of the
      requested environment, `'all'` when the argument is absent. */
  method GetStages(websites: seq<Website>, environment: Option<string>) returns (stages: seq<string>)
    ensures Order.StrictlyAscending(stages)
    ensures environment.GetOr(AllBucket) == AllBucket ==>
      forall x :: x in stages <==> exists site :: site in websites && site.stage == x
    ensures environment.GetOr(AllBucket) != AllBucket ==>
      forall x :: x in stages <==> exists site :: site in websites && site.environment == environment.value && site.stage == x
  {
    var env := environment.GetOr(AllBucket);
    var envStages, _ := EnvironmentFilters(websites);
    stages := Lookup(envStages, env);
    if env == AllBucket {
      StageFacetsAll(websites);
      assert forall x :: x in stages <==> x in Elements(stages);
    } else {
      StageFacetsExact(websites, env);
      if env in envStages {
        assert forall x :: x in stages <==> x in Elements(stages);
        assert forall x :: x in StagesIn(websites, env) <==> exists site :: site in websites && site.environment == env && site.stage == x;
      } else {
        assert forall site :: site in websites ==> site.environment != env by {
          forall site | site in websites ensures site.environment != env {
            assert site.environment in EnvsOf(websites);
          }
        }
      }
    }
  }

  /** The `/get_tags` handler (app.py:139-145): the tag list of the requested
      environment, `'all'` when the argument is absent; an environment none
      of whose records carries a tag has no list and yields `[]`. */
  method GetTags(websites: seq<Website>, environment: Option<string>) returns (tags: seq<string>)
    ensures Order.StrictlyAscending(tags)
    ensures environment.GetOr(AllBucket) == AllBucket ==>
      forall x :: x in tags <==> exists site :: site in websites && x in site.tags
    ensures environment.GetOr(AllBucket) != AllBucket ==>
      forall x :: x in tags <==> exists site :: site in websites && site.environment == environment.value && x in site.tags
  {
    var env := environment.GetOr(AllBucket);
    var _, envTags := EnvironmentFilters(websites);
    tags := Lookup(envTags, env);
    if env == AllBucket {
      TagFacetsAll(websites);
      assert forall x :: x in tags <==> x in Elements(tags);
    } else {
      TagFacetsExact(websites, env);
      if env in envTags {
        assert forall x :: x in tags <==> x in Elements(tags);
        assert forall x :: x in TagsIn(websites, env) <==> exists site :: site in websites && site.environment == env && x in site.tags;
      } else {
        forall site | site in websites && site.environment == env
          ensures site.tags == []
        {
          assert site.tags != [] ==> env in TaggedEnvsOf(websites);
        }
      }
    }
  }

  // ---------------------------------------------------------------------
  // filter_websites

  /** A comma-split selector; `str.split` never yields an empty list. */
  type Selector = s: seq<string> | |s| > 0 witness [""]

  /** The parsed arguments of `/filter`: the lower-cased search term and the three selectors. */
  datatype Query = Query(term: string, environments: Selector, stages: Selector, tags: Selector)

  /** app.py:104-109; an absent argument arrives as `""`. */
  function ParseQuery(search: string, environment: string, stage: string, tag: string): Query
  {
    Query(Text.Lower(search), Text.Split(environment, ','), Text.Split(stage, ','), Text.Split(tag, ','))
  }

  /** app.py:115-119: an empty term matches everything; otherwise it must
      occur in the lower-cased name, description or one of the tags. */
  predicate SearchMatch(site: Website, term: string)
  {
    || term == ""
    || Text.Contains(Text.Lower(site.name), term)
    || Text.Contains(Text.Lower(site.description), term)
    || exists tag :: tag in site.tags && Text.Contains(Text.Lower(tag), term)
  }

  /** app.py:122-123: a selector whose first element is `""` admits everything. */
  predicate Admits(selector: Selector, value: string)
  {
    selector[0] == "" || value in selector
  }

  /** app.py:124: the tag selector admits a record carrying any selected tag. */
  predicate AdmitsAnyOf(selector: Selector, tags: seq<string>)
  {
    selector[0] == "" || exists tag :: tag in selector && tag in tags
  }

  /** app.py:126. */
  predicate Matches(site: Website, q: Query)
  {
    && SearchMatch(site, q.term)
    && Admits(q.environments, site.environment)
    && Admits(q.stages, site.stage)
    && AdmitsAnyOf(q.tags, site.tags)
  }

  /** The records of `ws` that match `q`, in their order. */
  function Filter(ws: seq<Website>, q: Query): seq<Website>
    decreases |ws|
  {
    if ws == [] then []
    else
      var site := ws[|ws| - 1];
      Filter(ws[..|ws| - 1], q) + (if Matches(site, q) then [site] else [])
  }

  /** `filter_websites` (app.py:101-129), without the Flask plumbing. */
  method FilterWebsites(websites: seq<Website>, search: string, environment: string, stage: string, tag: string)
    returns (filtered: seq<Website>)
    ensures filtered == Filter(websites, ParseQuery(search, environment, stage, tag))
  {
    var searchTerm := Text.Lower(search);
    var envFilter: Selector := Text.Split(environment, ',');
    var stageFilter: Selector := Text.Split(stage, ',');
    var tagFilter: Selector := Text.Split(tag, ',');
    ghost var q := Query(searchTerm, envFilter, stageFilter, tagFilter);
    filtered := [];
    for i := 0 to |websites|
      invariant filtered == Filter(websites[..i], q)
    {
      var site := websites[i];
      assert websites[..i + 1][..i] == websites[..i];
      var searchMatch := SearchMatch(site, searchTerm);
      var envMatch := Admits(envFilter, site.environment);
      var stageMatch := Admits(stageFilter, site.stage);
      var tagMatch := AdmitsAnyOf(tagFilter, site.tags);
      if searchMatch && envMatch && stageMatch && tagMatch {
        filtered := filtered + [site];
      }
    }
    assert websites[..|websites|] == websites;
  }

  /** The filter keeps exactly the matching records, in their original order:
      `idx` lists the positions it keeps, strictly increasing, and a position
      is kept exactly when its record matches. */
  lemma {:induction false} FilterSelects(ws: seq<Website>, q: Query) returns (idx: seq<nat>)
    ensures |idx| == |Filter(ws, q)|
    ensures forall k :: 0 <= k < |idx| ==> idx[k] < |ws| && ws[idx[k]] == Filter(ws, q)[k]
    ensures forall k, l :: 0 <= k < l < |idx| ==> idx[k] < idx[l]
    ensures forall i :: 0 <= i < |ws| ==> (i in idx <==> Matches(ws[i], q))
    decreases |ws|
  {
    if ws == [] {
      idx := [];
    } else {
      var n := |ws| - 1;
      var init := ws[..n];
      var prev := FilterSelects(init, q);
      assert forall i :: 0 <= i < n ==> ws[i] == init[i];
      idx := prev + (if Matches(ws[n], q) then [n] else []);
      assert forall k :: 0 <= k < |prev| ==> idx[k] == prev[k];
    }
  }

  /** A record is in the filter's result exactly when it is in the snapshot and matches. */
  lemma FilterMembership(ws: seq<Website>, q: Query, site: Website)
    ensures site in Filter(ws, q) <==> site in ws && Matches(site, q)
  {
    var idx := FilterSelects(ws, q);
    var r := Filter(ws, q);
    if site in r {
      var k :| 0 <= k < |r| && r[k] == site;
      assert ws[idx[k]] == site;
    }
    if site in ws && Matches(site, q) {
      var i :| 0 <= i < |ws| && ws[i] == site;
      assert i in idx;
      var k :| 0 <= k < |idx| && idx[k] == i;
      assert r[k] == site;
    }
  }

  /** The filter of a prefix of a snapshot in which every record matches is that prefix. */
  lemma {:induction false} FilterPrefixAllMatch(ws: seq<Website>, q: Query, n: nat)
    requires n <= |ws|
    requires forall site :: site in ws ==> Matches(site, q)
    ensures Filter(ws[..n], q) == ws[..n]
    decreases n
  {
    if n > 0 {
      FilterPrefixAllMatch(ws, q, n - 1);
      var prefix := ws[..n];
      assert prefix[..n - 1] == ws[..n - 1];
      assert prefix[n - 1] == ws[n - 1] && ws[n - 1] in ws;
      assert Filter(prefix, q) == Filter(ws[..n - 1], q) + [ws[n - 1]];
      assert ws[..n - 1] + [ws[n - 1]] == prefix;
    }
  }

  /** When every record matches, the filter returns the snapshot unchanged. */
  lemma FilterAllMatch(ws: seq<Website>, q: Query)
    requires forall site :: site in ws ==> Matches(site, q)
    ensures Filter(ws, q) == ws
  {
    FilterPrefixAllMatch(ws, q, |ws|);
    assert ws[..|ws|] == ws;
  }

  /** With an empty search and selectors whose first comma-separated piece is
      empty (an empty argument, or one starting with a comma), the filter
      returns the snapshot unchanged. */
  lemma FilterUnrestricted(ws: seq<Website>, environment: string, stage: string, tag: string)
    requires environment == "" || environment[0] == ','
    requires stage == "" || stage[0] == ','
    requires tag == "" || tag[0] == ','
    ensures Filter(ws, ParseQuery("", environment, stage, tag)) == ws
  {
    Text.SplitHeadEmpty(environment, ',');
    Text.SplitHeadEmpty(stage, ',');
    Text.SplitHeadEmpty(tag, ',');
    FilterAllMatch(ws, ParseQuery("", environment, stage, tag));
  }

  /** The search is a substring test: it matches exactly when the term is
      empty or occurs at some position of the lower-cased name, description
      or one of the lower-cased tags. */
  lemma SearchMatchAt(site: Website, term: string)
    ensures SearchMatch(site, term) <==>
      || term == ""
      || (exists i :: Text.OccursAt(Text.Lower(site.name), term, i))
      || (exists i :: Text.OccursAt(Text.Lower(site.description), term, i))
      || (exists tag, i :: tag in site.tags && Text.OccursAt(Text.Lower(tag), term, i))
  {
    Text.ContainsAt(Text.Lower(site.name), term);
    Text.ContainsAt(Text.Lower(site.description), term);
    forall tag | tag in site.tags {
      Text.ContainsAt(Text.Lower(tag), term);
    }
  }

  /** The search ignores case: two spellings that lower-case alike select the same records. */
  lemma SearchIgnoresCase(ws: seq<Website>, search1: string, search2: string, environment: string, stage: string, tag: string)
    requires Text.Lower(search1) == Text.Lower(search2)
    ensures Filter(ws, ParseQuery(search1, environment, stage, tag)) == Filter(ws, ParseQuery(search2, environment, stage, tag))
  {
  }

  /** A selector is restricted by its first piece only: `",prod"` admits every environment. */
  lemma LeadingCommaAdmitsAll(value: string)
    ensures Admits(ParseQuery("", ",prod", "", "").environments, value)
  {
    Text.SplitHeadEmpty(",prod", ',');
  }

  /** The record of the single-site scenario is found by `web` but not by `site`
      (the domain only appears in the url, which is not searched). */
  lemma SearchScenario()
    ensures
      var ws := [ConsulClient.Website("web", "prod", "live", "https://site.example.com", "", ["blue"])];
      Filter(ws, ParseQuery("site", "", "", "")) == [] && Filter(ws, ParseQuery("web", "", "", "")) == ws
  {
    var site := ConsulClient.Website("web", "prod", "live", "https://site.example.com", "", ["blue"]);
    var ws := [site];
    assert Text.Lower("site") == "site";
    assert Text.Lower("web") == "web";
    assert Text.Lower("blue") == "blue";
    assert Text.Lower("") == "";
    assert Text.Split("", ',') == [""];
    assert Text.Contains("web", "web");
    assert !Text.Contains("web", "site") by {
      assert "web"[1..] == "eb" && "eb"[1..] == "b" && "b"[1..] == "";
    }
    assert !Text.Contains("blue", "site") by {
      assert "e"[1..] == "" && "ue"[1..] == "e" && "lue"[1..] == "ue" && "blue"[1..] == "lue";
      assert !Text.Contains("e", "site");
      assert !Text.Contains("ue", "site");
      assert !Text.Contains("lue", "site");
      assert "site"[0] != "blue"[0];
    }
    assert !Text.Contains("", "site");
    assert !SearchMatch(site, "site");
    assert SearchMatch(site, "web");
    assert ws[..0] == [];
  }

  // ---------------------------------------------------------------------
  // The snapshot: load_websites and refresh_websites_from_consul

  /** What `load_websites` finds on disk: no file, a file that fails to
      parse, or a parsed list of records. */
  datatype SnapshotFile = Missing | Unreadable | Stored(records: seq<Website>)

  /** The process-wide `websites_data`. */
  class Inventory {
    var websites: seq<Website>

    /** Process start: `websites_data = []`. */
    constructor ()
      ensures websites == []
    {
      websites := [];
    }

    /** `load_websites` (app.py:21-35): a stored snapshot replaces the
        in-memory one, a file that fails to parse empties it, and without a
        file it is kept; the (new) snapshot is returned. */
    method Load(file: SnapshotFile) returns (current: seq<Website>)
      modifies this
      ensures websites == match file
        case Missing => old(websites)
        case Unreadable => []
        case Stored(records) => records
      ensures current == websites
    {
      match file {
        case Missing =>
        case Unreadable => websites := [];
        case Stored(records) => websites := records;
      }
      current := websites;
    }

    /** `refresh_websites_from_consul` (app.py:37-57): a non-empty result
        replaces the snapshot wholesale and an empty one leaves it alone;
        the next refresh is scheduled only when the walk did not raise. */
    method Refresh(cat: ConsulClient.Catalog) returns (rescheduled: bool)
      modifies this
      ensures rescheduled <==> ConsulClient.Extract(cat).Ok?
      ensures ConsulClient.Extract(cat).Ok? && ConsulClient.Extract(cat).value != [] ==>
        websites == ConsulClient.Extract(cat).value
      ensures ConsulClient.Extract(cat).Err? || ConsulClient.Extract(cat).value == [] ==>
        websites == old(websites)
    {
      var result := ConsulClient.GetWebsitesFromConsul(cat);
      if result.Err? {
        return false;
      }
      if result.value != [] {
        websites := result.value;
      }
      rescheduled := true;
    }
  }
}
