/** What a contract refresh answers and what it leaves in the stores, field by field. */
module ContractOutcomes {
  import opened Wrappers
  import opened PortAssignment
  import opened ImageReferences
  import opened ContractRefresh
  import opened ContractGuarantees

  // ---- Replies -----------------------------------------------------------------------------------

  /** The replies to requests that come to nothing, and that none of them changes anything. */
  lemma {:induction false} RefusalsExactly(plane: Plane, name: string, own: int, fetched: Fetched, allow: bool)
    ensures var t, known := Refreshing(plane, name, own, fetched, allow), name in plane.components;
      var sourced := known && plane.components[name].gitUrl != "";
      && (t.reply.NotFound? <==> !known || (sourced && fetched.NoCompose?))
      && (t.reply.BadRequest? <==> known && !sourced)
      && (t.reply.Unprocessable? <==> sourced && (fetched.FetchFailed? || fetched.Unparsable?))
      && (sourced && fetched.Parsed? <==> t.reply.PortsExhausted? || t.reply.Conflict? || t.reply.Refreshed?)
      && (!t.reply.Refreshed? ==> t.plane == plane)
  {
  }

  /** A real value of the stored environment that the contract has no real value for. */
  predicate Loses(stored: Env, compose: Env, k: string) {
    k in stored && !EffectivelyEmpty(stored[k]) && (k !in compose || EffectivelyEmpty(compose[k]))
  }

  /** Given unique keys, a refresh conflicts exactly when it may not clear and the primary would lose a real value. */
  lemma {:induction false} ConflictExactly(plane: Plane, name: string, own: int, spec: Spec, allow: bool)
    requires name in plane.components && UniqueServices(plane.components[name].siblings) && WellKeyed(spec)
    requires plane.components[name].gitUrl != ""
    requires !Refreshing(plane, name, own, Parsed(spec), allow).reply.PortsExhausted?
    ensures Refreshing(plane, name, own, Parsed(spec), allow).reply.Conflict? <==>
      !allow && exists k :: k in plane.components[name].env && Loses(plane.components[name].env, spec.env, k)
  {
    if !allow {
      NotExhausted(plane, name, own, spec);
      ConflictIsPrimary(plane, name, own, spec);
      var env := plane.components[name].env;
      forall k ensures Loses(env, spec.env, k) <==> BlanksKey(env, spec.env, k) {
        NothingIsEmpty();
      }
    }
  }

  lemma NotExhausted(plane: Plane, name: string, own: int, spec: Spec)
    requires name in plane.components && plane.components[name].gitUrl != ""
    requires !Refreshing(plane, name, own, Parsed(spec), false).reply.PortsExhausted?
    ensures Rebuilt(name, plane.components[name], spec, Occupied(plane.components, own, name)).Some?
  {
  }

  lemma NothingIsEmpty()
    ensures EffectivelyEmpty("")
  {
  }

  // ---- What is stored ----------------------------------------------------------------------------

  /** An accepted refresh stores the new configuration, its schema if there is one, and a tracked image. */
  lemma {:induction false} RefreshStoresExactly(plane: Plane, name: string, own: int, spec: Spec, allow: bool)
    requires Refreshing(plane, name, own, Parsed(spec), allow).reply.Refreshed?
    ensures var t := Refreshing(plane, name, own, Parsed(spec), allow);
      && t.plane.components == plane.components[name := t.reply.config]
      && t.plane.templates ==
           (if spec.schema.Some? then plane.templates[name := spec.schema.value] else plane.templates)
      && t.plane.images ==
           if t.reply.config.image != "" && name in plane.images
           then plane.images[name := t.reply.config.image] else plane.images
  {
  }

  /** The contract has a schema that is not the stored one. */
  predicate NewSchema(plane: Plane, name: string, spec: Spec) {
    spec.schema.Some? && !(name in plane.templates && plane.templates[name] == spec.schema.value)
  }

  /** The two configurations differ in a contract field. */
  predicate Differs(a: Component, b: Component, f: Field) {
    match f
    case Image => a.image != b.image
    case ContainerName => a.containerName != b.containerName
    case Ports => a.ports != b.ports
    case MountsField => a.mounts != b.mounts
    case EnvField => a.env != b.env
    case MemLimit => a.memLimit != b.memLimit
    case MemswapLimit => a.memswapLimit != b.memswapLimit
    case ClaudeMount => a.claudeMount != b.claudeMount
    case ClaudeMountPath => a.claudePath != b.claudePath
    case NamedVolumes => a.namedVolumes != b.namedVolumes
    case SiblingsField => a.siblings != b.siblings
    case ConfigVolume => a.configVolume != b.configVolume
    case AllowChatAccess => a.allowChatAccess != b.allowChatAccess
    case OtherFields => a.other != b.other
    case ConfigSchema => false
  }

  /** The reported changes are the fields that differ, and the schema if it is a new one. */
  lemma {:induction false} ReportsExactly(plane: Plane, name: string, own: int, spec: Spec, allow: bool, f: Field)
    requires Refreshing(plane, name, own, Parsed(spec), allow).reply.Refreshed?
    ensures var reply := Refreshing(plane, name, own, Parsed(spec), allow).reply;
      f in reply.changed <==>
        Differs(plane.components[name], reply.config, f) || (f == ConfigSchema && NewSchema(plane, name, spec))
  {
    ReplyLists(plane, name, own, spec, allow);
    ListsDifferences(plane.components[name], Refreshing(plane, name, own, Parsed(spec), allow).reply.config, f);
  }

  lemma ListsDifferences(a: Component, b: Component, f: Field)
    ensures f in ChangedIn(CONTRACT_FIELDS, a, b) <==> Differs(a, b, f)
  {
    ListedIffDiffers(CONTRACT_FIELDS, a, b, f);
    EveryFieldListed(f);
    assert ConfigSchema !in CONTRACT_FIELDS;
  }

  lemma ReplyLists(plane: Plane, name: string, own: int, spec: Spec, allow: bool)
    requires Refreshing(plane, name, own, Parsed(spec), allow).reply.Refreshed?
    ensures var reply := Refreshing(plane, name, own, Parsed(spec), allow).reply;
      reply.changed == ChangedIn(CONTRACT_FIELDS, plane.components[name], reply.config)
                       + if NewSchema(plane, name, spec) then [ConfigSchema] else []
  {
  }

  lemma {:induction false} ListedIffDiffers(fields: seq<Field>, a: Component, b: Component, f: Field)
    ensures f in ChangedIn(fields, a, b) <==> f in fields && !SameField(a, b, f)
  {
    if fields != [] {
      ListedIffDiffers(fields[1..], a, b, f);
    }
  }

  // ---- The new configuration ---------------------------------------------------------------------

  /** The mounts of the contract with the component's name in front of each volume. */
  predicate Prefixed(mounts: seq<Mount>, compose: seq<Mount>, name: string) {
    && |mounts| == |compose|
    && forall i :: 0 <= i < |mounts| ==>
         && mounts[i].host == name + "-" + compose[i].host
         && mounts[i].container == compose[i].container && mounts[i].readOnly == compose[i].readOnly
  }

  predicate SomeMount(mounts: seq<Mount>, host: string) {
    exists i :: 0 <= i < |mounts| && mounts[i].host == host
  }

  function Hosted(mounts: seq<Mount>): seq<string> {
    if mounts == [] then [] else [mounts[0].host] + Hosted(mounts[1..])
  }

  function HostedBySiblings(sibs: seq<Service>): seq<string> {
    if sibs == [] then [] else Hosted(sibs[0].mounts) + HostedBySiblings(sibs[1..])
  }

  lemma {:induction false} HostedIsHosts(mounts: seq<Mount>)
    ensures Hosted(mounts) == MountHosts(mounts)
  {
    if mounts != [] {
      HostedIsHosts(mounts[1..]);
      assert MountHosts(mounts) == [mounts[0].host] + MountHosts(mounts[1..]);
    }
  }

  lemma {:induction false} HostedBySiblingsIsHosts(sibs: seq<Service>)
    ensures HostedBySiblings(sibs) == SiblingHosts(sibs)
  {
    if sibs != [] {
      HostedIsHosts(sibs[0].mounts);
      HostedBySiblingsIsHosts(sibs[1..]);
    }
  }

  /** What the contract decides, what only fills in for it, and what is carried over from the stored configuration. */
  lemma {:induction false} RebuiltFields(name: string, cfg: Component, spec: Spec, occupied: set<int>)
    requires Rebuilt(name, cfg, spec, occupied).Some?
    ensures var new_ := Rebuilt(name, cfg, spec, occupied).value;
      && new_.id == name && new_.env == spec.env && new_.other == spec.other && new_.chat == spec.chat
      && new_.containerName == (if spec.containerName == "" then name else spec.containerName)
      && new_.image == ReconcileImage(cfg.image, spec.image)
      && Prefixed(new_.mounts, spec.mounts, name)
      && new_.namedVolumes == Hosted(new_.mounts) + HostedBySiblings(new_.siblings)
      && new_.memLimit == (if spec.memLimit == "2g" then cfg.memLimit else spec.memLimit)
      && new_.memswapLimit == (if spec.memswapLimit.GetOr("") == "" then cfg.memswapLimit else spec.memswapLimit)
      && (new_.claudeMount <==> cfg.claudeMount || spec.claudeMount)
      && new_.claudePath == (if spec.claudeMount then spec.claudePath else cfg.claudePath)
      && new_.allowChatAccess == cfg.allowChatAccess && new_.gitUrl == cfg.gitUrl
      && new_.repoId == cfg.repoId && new_.autoUpdate == cfg.autoUpdate
  {
    var new_ := Rebuilt(name, cfg, spec, occupied).value;
    HostedIsHosts(new_.mounts);
    HostedBySiblingsIsHosts(new_.siblings);
  }

  /** The config volume is renamed with the mounts, if some service mounts it. */
  lemma {:induction false} RebuiltConfigVolume(name: string, cfg: Component, spec: Spec, occupied: set<int>)
    requires Rebuilt(name, cfg, spec, occupied).Some?
    ensures var v := spec.configVolume;
      var mounted := v.Some? && (SomeMount(spec.mounts, v.value)
        || exists i :: 0 <= i < |spec.siblings| && SomeMount(spec.siblings[i].mounts, v.value));
      Rebuilt(name, cfg, spec, occupied).value.configVolume == if mounted then Some(name + "-" + v.value) else v
  {
    var v := spec.configVolume;
    if v.Some? {
      forall ms ensures Mounts(ms, v.value) <==> SomeMount(ms, v.value) {}
    }
  }

  /** A key of a merged environment: a real contract value wins, else what is stored, else the placeholder. */
  lemma MergedEnvMeans(stored: Env, compose: Env)
    ensures var merged := MergedEnv(stored, compose);
      && merged.Keys == stored.Keys + compose.Keys
      && forall k :: k in merged ==>
           merged[k] == if k in compose && !EffectivelyEmpty(compose[k]) then compose[k]
                        else if k in stored then stored[k] else compose[k]
  {
  }

  /** The last stored service with a key. */
  predicate LastWithKey(sibs: seq<Service>, key: string, j: nat) {
    j < |sibs| && sibs[j].key == key && forall k :: j < k < |sibs| ==> sibs[k].key != key
  }

  lemma {:induction false} FindIsLast(sibs: seq<Service>, key: string, j: nat)
    requires LastWithKey(sibs, key, j)
    ensures FindService(sibs, key) == Some(sibs[j])
    decreases |sibs|
  {
    if j < |sibs| - 1 {
      assert sibs[|sibs| - 1].key != key;
      FindIsLast(sibs[..|sibs| - 1], key, j);
    }
  }

  /** A sibling of the new configuration, against the contract's and the stored one of its key. */
  predicate SiblingFrom(new_: Service, compose: Service, stored: Option<Service>, name: string) {
    && new_.key == compose.key && Prefixed(new_.mounts, compose.mounts, name) && new_.other == compose.other
    && new_.env == (if stored.Some? then MergedEnv(stored.value.env, compose.env) else compose.env)
    && new_.image == (if stored.Some? then ReconcileImage(stored.value.image, compose.image) else compose.image)
  }

  /** The siblings are the contract's, in its order, each merged with the stored one of its key if there is one. */
  lemma {:induction false} RebuiltSiblingFrom(name: string, cfg: Component, spec: Spec, occupied: set<int>, i: nat)
    requires Rebuilt(name, cfg, spec, occupied).Some? && i < |spec.siblings|
    ensures var new_ := Rebuilt(name, cfg, spec, occupied).value;
      && |new_.siblings| == |spec.siblings|
      && (forall j: nat :: LastWithKey(cfg.siblings, spec.siblings[i].key, j) ==>
            SiblingFrom(new_.siblings[i], spec.siblings[i], Some(cfg.siblings[j]), name))
      && ((forall j :: 0 <= j < |cfg.siblings| ==> cfg.siblings[j].key != spec.siblings[i].key) ==>
            SiblingFrom(new_.siblings[i], spec.siblings[i], None, name))
  {
    var key := spec.siblings[i].key;
    RebuiltSiblingIs(name, cfg, spec, occupied, i);
    forall j: nat | LastWithKey(cfg.siblings, key, j) ensures FindService(cfg.siblings, key) == Some(cfg.siblings[j]) {
      FindIsLast(cfg.siblings, key, j);
    }
    FindIsMember(cfg.siblings, key);
  }

  lemma {:induction false} RebuiltSiblingIs(name: string, cfg: Component, spec: Spec, occupied: set<int>, i: nat)
    requires Rebuilt(name, cfg, spec, occupied).Some? && i < |spec.siblings|
    ensures var new_ := Rebuilt(name, cfg, spec, occupied).value;
      && |new_.siblings| == |spec.siblings|
      && SiblingFrom(new_.siblings[i], spec.siblings[i], FindService(cfg.siblings, spec.siblings[i].key), name)
  {
    var named := Namespaced(spec, name);
    OnlyPortsAssigned(cfg.siblings, named.siblings, Preserved(named.ports, cfg.ports, occupied).value.occupied);
  }

  // ---- Ports -------------------------------------------------------------------------------------

  /** A component publishes a host port, on its primary or on a sibling. */
  predicate Publishes(c: Component, port: int) {
    || (exists i :: 0 <= i < |c.ports| && c.ports[i].host == port)
    || exists j :: 0 <= j < |c.siblings|
         && exists i :: 0 <= i < |c.siblings[j].ports| && c.siblings[j].ports[i].host == port
  }

  lemma PublishesIsHostPort(c: Component, port: int)
    ensures Publishes(c, port) <==> port in HostPorts(c)
  {
    if j :| 0 <= j < |c.siblings| && exists i :: 0 <= i < |c.siblings[j].ports| && c.siblings[j].ports[i].host == port {
      assert port in Hosts(c.siblings[j].ports);
    }
  }

  /** Ports being apart means: no port is published twice by different components, and none is the server's own. */
  lemma PortsApartMeans(components: map<string, Component>, own: int)
    ensures PortsApart(components, own) <==>
      forall n, p :: n in components && Publishes(components[n], p) ==>
        p != own && forall m :: m in components && Publishes(components[m], p) ==> m == n
  {
    forall c: Component, p ensures Publishes(c, p) <==> p in HostPorts(c) { PublishesIsHostPort(c, p); }
    if PortsApart(components, own) {
      forall n, p, m | n in components && p in HostPorts(components[n])
                       && m in components && p in HostPorts(components[m])
        ensures p != own && m == n
      {
        assert HostPorts(components[n]) !! Occupied(components, own, n);
      }
    }
  }

  /** A refresh runs out of ports only when those in use and those it needs reach the size of the range. */
  lemma {:induction false} ExhaustedNeedsFullRange(plane: Plane, name: string, own: int, spec: Spec, allow: bool)
    requires Refreshing(plane, name, own, Parsed(spec), allow).reply.PortsExhausted?
    ensures |Occupied(plane.components, own, name)| + |spec.ports| + SiblingPortCount(spec.siblings) >= 10000
  {
    var named, occupied := Namespaced(spec, name), Occupied(plane.components, own, name);
    var ports := Preserved(named.ports, plane.components[name].ports, occupied);
    if ports.None? {
      FailureNeedsFullRange(named.ports, plane.components[name].ports, occupied);
    } else {
      GrowsBy(named.ports, plane.components[name].ports, occupied);
      SiblingsNeedFullRange(plane.components[name].siblings, named.siblings, ports.value.occupied);
      SamePortCount(named.siblings, spec.siblings);
    }
  }

  function SiblingPortCount(sibs: seq<Service>): nat {
    if sibs == [] then 0 else |sibs[0].ports| + SiblingPortCount(sibs[1..])
  }

  lemma {:induction false} SamePortCount(a: seq<Service>, b: seq<Service>)
    requires |a| == |b| && forall i :: 0 <= i < |a| ==> a[i].ports == b[i].ports
    ensures SiblingPortCount(a) == SiblingPortCount(b)
  {
    if a != [] {
      SamePortCount(a[1..], b[1..]);
    }
  }

  lemma {:induction false} GrowsBy(news: seq<Port>, olds: seq<Port>, occupied: set<int>)
    requires Preserved(news, olds, occupied).Some?
    ensures |Preserved(news, olds, occupied).value.occupied| <= |occupied| + |news|
    decreases |news|
  {
    if news != [] {
      GrowsBy(news[1..], olds, occupied + {Assigned(news[0], olds, occupied).value});
    }
  }

  lemma {:induction false} SiblingsNeedFullRange(stored: seq<Service>, sibs: seq<Service>, occupied: set<int>)
    requires AssignedSiblings(stored, sibs, occupied).None?
    ensures |occupied| + SiblingPortCount(sibs) >= 10000
    decreases |sibs|
  {
    var a := Preserved(sibs[0].ports, OldPorts(stored, sibs[0].key), occupied);
    if a.None? {
      FailureNeedsFullRange(sibs[0].ports, OldPorts(stored, sibs[0].key), occupied);
    } else {
      GrowsBy(sibs[0].ports, OldPorts(stored, sibs[0].key), occupied);
      SiblingsNeedFullRange(stored, sibs[1..], a.value.occupied);
    }
  }

  // ---- The kept part of a reply ------------------------------------------------------------------

  /** The report's entry for one sibling, against the contract's and the stored one of its key. */
  ghost predicate ReportedFor(r: Report, sib: Service, stored: Option<Service>) {
    && (sib.key in r.siblingEnv <==>
          stored.Some? && exists k :: k in sib.env && KeptAgainstEmpty(stored.value.env, sib.env, k))
    && (sib.key in r.siblingEnv ==> forall k :: k in r.siblingEnv[sib.key] <==>
          k in sib.env && EffectivelyEmpty(sib.env[k])
          && k in stored.value.env && !EffectivelyEmpty(stored.value.env[k]))
    && (sib.key in r.siblingImages <==>
          stored.Some? && ReconcileImage(stored.value.image, sib.image) != sib.image)
    && (sib.key in r.siblingImages ==> r.siblingImages[sib.key] == stored.value.image)
  }

  lemma {:induction false} NotedOthers(stored: seq<Service>, sibs: seq<Service>, r: Report, key: string)
    requires forall i :: 0 <= i < |sibs| ==> sibs[i].key != key
    ensures var t := NotedAll(stored, sibs, r);
      && (key in t.siblingEnv <==> key in r.siblingEnv)
      && (key in r.siblingEnv ==> t.siblingEnv[key] == r.siblingEnv[key])
      && (key in t.siblingImages <==> key in r.siblingImages)
      && (key in r.siblingImages ==> t.siblingImages[key] == r.siblingImages[key])
    decreases |sibs|
  {
    if sibs != [] {
      NotedOthers(stored, sibs[1..], Noted(stored, sibs[0], r), key);
    }
  }

  lemma {:induction false} NotedExactly(stored: seq<Service>, sibs: seq<Service>, r: Report, i: nat)
    requires UniqueServices(sibs) && i < |sibs| && sibs[i].key !in r.siblingEnv && sibs[i].key !in r.siblingImages
    ensures ReportedFor(NotedAll(stored, sibs, r), sibs[i], FindService(stored, sibs[i].key))
    ensures NotedAll(stored, sibs, r).image == r.image
    decreases |sibs|
  {
    if i > 0 {
      NotedExactly(stored, sibs[1..], Noted(stored, sibs[0], r), i - 1);
    } else {
      NotedOne(stored, sibs[0], r);
      NotedOthers(stored, sibs[1..], Noted(stored, sibs[0], r), sibs[0].key);
      NotedKeepsImage(stored, sibs, r);
    }
  }

  lemma NotedOne(stored: seq<Service>, sib: Service, r: Report)
    requires sib.key !in r.siblingEnv && sib.key !in r.siblingImages
    ensures ReportedFor(Noted(stored, sib, r), sib, FindService(stored, sib.key))
  {
    var prior := FindService(stored, sib.key);
    if prior.Some? {
      var keys := KeptKeys(prior.value.env, sib.env);
      assert forall k :: k in keys <==> k in sib.env && KeptAgainstEmpty(prior.value.env, sib.env, k);
      if keys != {} {
        var k :| k in keys;
      }
    }
  }

  lemma {:induction false} NotedKeepsImage(stored: seq<Service>, sibs: seq<Service>, r: Report)
    ensures NotedAll(stored, sibs, r).image == r.image
    decreases |sibs|
  {
    if sibs != [] {
      NotedKeepsImage(stored, sibs[1..], Noted(stored, sibs[0], r));
    }
  }

  /**
   * The kept part of a reply: the primary's image if the stored one stayed, and for each sibling the
   * keys whose placeholder did not win and the image that stayed.
   */
  lemma {:induction false} KeptExactly(plane: Plane, name: string, own: int, spec: Spec, allow: bool)
    requires Refreshing(plane, name, own, Parsed(spec), allow).reply.Refreshed? && WellKeyed(spec)
    ensures var cfg, reply := plane.components[name], Refreshing(plane, name, own, Parsed(spec), allow).reply;
      && reply.preserved.image == (if reply.config.image != spec.image then Some(reply.config.image) else None)
      && forall i :: 0 <= i < |spec.siblings| ==>
           ReportedFor(reply.preserved, spec.siblings[i], FindService(cfg.siblings, spec.siblings[i].key))
  {
    var cfg := plane.components[name];
    ReplyReports(plane, name, own, spec, allow);
    var image := ReconcileImage(cfg.image, spec.image);
    var start := Report(if image != spec.image then Some(image) else None, map[], map[]);
    NotedKeepsImage(cfg.siblings, spec.siblings, start);
    forall i | 0 <= i < |spec.siblings|
      ensures ReportedFor(Reported(cfg, spec), spec.siblings[i], FindService(cfg.siblings, spec.siblings[i].key))
    {
      NotedExactly(cfg.siblings, spec.siblings, start, i);
    }
  }

  lemma ReplyReports(plane: Plane, name: string, own: int, spec: Spec, allow: bool)
    requires Refreshing(plane, name, own, Parsed(spec), allow).reply.Refreshed?
    ensures var cfg, reply := plane.components[name], Refreshing(plane, name, own, Parsed(spec), allow).reply;
      reply.preserved == Reported(cfg, spec) && reply.config.image == ReconcileImage(cfg.image, spec.image)
  {
  }
}
