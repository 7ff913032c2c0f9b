/**
 * The contract refresh: a component's stored configuration rebuilt from its compose contract,
 * keeping assigned host ports, tracked image tags and operator-set environment values.
 */
module ContractRefresh {
  import opened Wrappers
  import opened PortAssignment
  import opened ImageReferences

  type Env = map<string, string>

  datatype Mount = Mount(host: string, container: string, readOnly: bool)

  /** A sibling service; `other` holds the contract fields that are copied as they stand. */
  datatype Service = Service(
    key: string, image: string, ports: seq<Port>, mounts: seq<Mount>, env: Env, other: Env)

  /** A parsed compose contract. */
  datatype Spec = Spec(
    image: string, containerName: string, ports: seq<Port>, mounts: seq<Mount>, env: Env,
    memLimit: string, memswapLimit: Option<string>, claudeMount: bool, claudePath: string,
    siblings: seq<Service>, configVolume: Option<string>, other: Env, chat: Chat, schema: Option<string>)

  /** What the contract says about the chat agent; not among the fields a refresh reports. */
  datatype Chat = Chat(agentMutatable: bool, skill: string, skillEndpoint: string)

  /** What only an operator sets, and no contract names. */
  datatype Operator = Operator(
    routable: bool, isVirtual: bool, chatBaseUrl: Option<string>, authType: string, authHeaderName: string,
    consumedScopes: seq<string>, targetDisk: string, remoteHost: string)

  const UNSET := Operator(true, false, None, "", "", [], "", "")

  /** A stored component.  `other` holds the remaining contract fields; the last line is not contract-derived. */
  datatype Component = Component(
    id: string, image: string, containerName: string, ports: seq<Port>, mounts: seq<Mount>, env: Env,
    memLimit: string, memswapLimit: Option<string>, claudeMount: bool, claudePath: string,
    namedVolumes: seq<string>, siblings: seq<Service>, configVolume: Option<string>, allowChatAccess: bool, other: Env,
    gitUrl: string, repoId: string, autoUpdate: bool, chat: Chat, operator: Operator)

  // ---- Volume names ------------------------------------------------------------------------------

  function Renamed(m: Mount, name: string): Mount {
    m.(host := name + "-" + m.host)
  }

  function RenamedAll(ms: seq<Mount>, name: string): seq<Mount> {
    seq(|ms|, i requires 0 <= i < |ms| => Renamed(ms[i], name))
  }

  predicate Mounts(ms: seq<Mount>, host: string) {
    exists i :: 0 <= i < |ms| && ms[i].host == host
  }

  /** Every named volume gets the component's name as prefix; so does the config volume if it is mounted. */
  function Namespaced(spec: Spec, name: string): Spec {
    var mounted := spec.configVolume.Some? &&
      (Mounts(spec.mounts, spec.configVolume.value)
       || exists i :: 0 <= i < |spec.siblings| && Mounts(spec.siblings[i].mounts, spec.configVolume.value));
    spec.(mounts := RenamedAll(spec.mounts, name),
          siblings := seq(|spec.siblings|, i requires 0 <= i < |spec.siblings| =>
            spec.siblings[i].(mounts := RenamedAll(spec.siblings[i].mounts, name))),
          configVolume := if mounted then Some(name + "-" + spec.configVolume.value) else spec.configVolume)
  }

  // ---- Sibling reconciliation --------------------------------------------------------------------

  /** The last service with a key, as a dictionary comprehension over the list finds it. */
  function FindService(sibs: seq<Service>, key: string): Option<Service> {
    if sibs == [] then None
    else if sibs[|sibs| - 1].key == key then Some(sibs[|sibs| - 1])
    else FindService(sibs[..|sibs| - 1], key)
  }

  /** Stored values survive compose placeholders; real compose values win. */
  function MergedEnv(stored: Env, compose: Env): Env {
    map k | k in stored.Keys + compose.Keys ::
      if k in compose && !EffectivelyEmpty(compose[k]) then compose[k]
      else if k in stored then stored[k]
      else compose[k]
  }

  function ReconciledSibling(stored: seq<Service>, sib: Service): Service {
    var prior := FindService(stored, sib.key);
    if prior.None? then sib
    else sib.(env := MergedEnv(prior.value.env, sib.env), image := ReconcileImage(prior.value.image, sib.image))
  }

  function ReconciledSiblings(stored: seq<Service>, sibs: seq<Service>): seq<Service> {
    seq(|sibs|, i requires 0 <= i < |sibs| => ReconciledSibling(stored, sibs[i]))
  }

  // ---- What was kept against the contract --------------------------------------------------------

  /** The compose value is empty and the stored one is not. */
  predicate KeptAgainstEmpty(stored: Env, compose: Env, k: string)
    requires k in compose
  {
    EffectivelyEmpty(compose[k]) && k in stored && !EffectivelyEmpty(stored[k])
  }

  function KeptKeys(stored: Env, compose: Env): set<string> {
    set k | k in compose && KeptAgainstEmpty(stored, compose, k)
  }

  /** The `preserved` part of a reply: the primary's image, and by service key the siblings' keys and images. */
  datatype Report = Report(
    image: Option<string>, siblingEnv: map<string, set<string>>, siblingImages: map<string, string>)

  function Noted(stored: seq<Service>, sib: Service, r: Report): Report {
    var prior := FindService(stored, sib.key);
    if prior.None? then r else
    var keys, image := KeptKeys(prior.value.env, sib.env), ReconcileImage(prior.value.image, sib.image);
    r.(siblingEnv := if keys != {} then r.siblingEnv[sib.key := keys] else r.siblingEnv,
       siblingImages := if image != sib.image then r.siblingImages[sib.key := image] else r.siblingImages)
  }

  function NotedAll(stored: seq<Service>, sibs: seq<Service>, r: Report): Report
    decreases |sibs|
  {
    if sibs == [] then r else NotedAll(stored, sibs[1..], Noted(stored, sibs[0], r))
  }

  function Reported(cfg: Component, parsed: Spec): Report {
    var image := ReconcileImage(cfg.image, parsed.image);
    NotedAll(cfg.siblings, parsed.siblings, Report(if image != parsed.image then Some(image) else None, map[], map[]))
  }

  // ---- Sibling ports -----------------------------------------------------------------------------

  function OldPorts(stored: seq<Service>, key: string): seq<Port> {
    var prior := FindService(stored, key);
    if prior.Some? then prior.value.ports else []
  }

  datatype Siblings = Siblings(services: seq<Service>, occupied: set<int>)

  /** Siblings get their ports one after the other, each after what was occupied before it. */
  function AssignedSiblings(stored: seq<Service>, sibs: seq<Service>, occupied: set<int>): Option<Siblings>
    decreases |sibs|
  {
    if sibs == [] then Some(Siblings([], occupied)) else
    var a := Preserved(sibs[0].ports, OldPorts(stored, sibs[0].key), occupied);
    if a.None? then None else
    var rest := AssignedSiblings(stored, sibs[1..], a.value.occupied);
    if rest.None? then None
    else Some(Siblings([sibs[0].(ports := a.value.ports)] + rest.value.services, rest.value.occupied))
  }

  // ---- The rebuilt configuration -----------------------------------------------------------------

  function Or(a: Option<string>, b: Option<string>): Option<string> {
    if a.Some? && a.value != "" then a else b
  }

  function MountHosts(ms: seq<Mount>): seq<string> {
    seq(|ms|, i requires 0 <= i < |ms| => ms[i].host)
  }

  function SiblingHosts(sibs: seq<Service>): seq<string> {
    if sibs == [] then [] else MountHosts(sibs[0].mounts) + SiblingHosts(sibs[1..])
  }

  const DEFAULT_MEM_LIMIT := "2g"

  /** The new configuration: contract fields from the spec, operator fields from the stored one, the rest defaults. */
  function Built(name: string, cfg: Component, spec: Spec): Component {
    Component(
      name, spec.image, if spec.containerName != "" then spec.containerName else name,
      spec.ports, spec.mounts, spec.env,
      if spec.memLimit != DEFAULT_MEM_LIMIT then spec.memLimit else cfg.memLimit,
      Or(spec.memswapLimit, cfg.memswapLimit),
      cfg.claudeMount || spec.claudeMount,
      if spec.claudeMount then spec.claudePath else cfg.claudePath,
      MountHosts(spec.mounts) + SiblingHosts(spec.siblings), spec.siblings, spec.configVolume,
      cfg.allowChatAccess, spec.other,
      cfg.gitUrl, cfg.repoId, cfg.autoUpdate, spec.chat, UNSET)
  }

  /** The configuration a refresh would store; `None` when no free host port is left. */
  function Rebuilt(name: string, cfg: Component, parsed: Spec, occupied: set<int>): Option<Component> {
    var spec := Namespaced(parsed, name);
    var ports := Preserved(spec.ports, cfg.ports, occupied);
    if ports.None? then None else
    var sibs := AssignedSiblings(cfg.siblings, spec.siblings, ports.value.occupied);
    if sibs.None? then None else
    Some(Built(name, cfg, spec.(ports := ports.value.ports,
                                image := ReconcileImage(cfg.image, spec.image),
                                siblings := ReconciledSiblings(cfg.siblings, sibs.value.services))))
  }

  // ---- Refusing to blank values ------------------------------------------------------------------

  /** A stored real value that the new environment would leave empty, a placeholder, or absent. */
  predicate BlanksKey(stored: Env, new_: Env, key: string) {
    key in stored && !EffectivelyEmpty(stored[key]) && EffectivelyEmpty(if key in new_ then new_[key] else "")
  }

  predicate BlanksSibling(stored: Service, new_: Component, key: string) {
    var s := FindService(new_.siblings, stored.key);
    s.Some? && BlanksKey(stored.env, s.value.env, key)
  }

  predicate Blanks(stored: Component, new_: Component) {
    || (exists k :: k in stored.env && BlanksKey(stored.env, new_.env, k))
    || exists i :: 0 <= i < |stored.siblings|
         && exists k :: k in stored.siblings[i].env && BlanksSibling(stored.siblings[i], new_, k)
  }

  // ---- The diff ----------------------------------------------------------------------------------

  datatype Field =
    | Image | ContainerName | Ports | MountsField | EnvField | MemLimit | MemswapLimit | ClaudeMount | ClaudeMountPath
    | NamedVolumes | SiblingsField | ConfigVolume | AllowChatAccess | OtherFields | ConfigSchema

  const CONTRACT_FIELDS := [
    Image, ContainerName, Ports, MountsField, EnvField, OtherFields, MemLimit, MemswapLimit, ClaudeMount,
    ClaudeMountPath, NamedVolumes, SiblingsField, ConfigVolume, AllowChatAccess]

  predicate SameField(a: Component, b: Component, f: Field) {
    match f
    case Image => a.image == b.image
    case ContainerName => a.containerName == b.containerName
    case Ports => a.ports == b.ports
    case MountsField => a.mounts == b.mounts
    case EnvField => a.env == b.env
    case MemLimit => a.memLimit == b.memLimit
    case MemswapLimit => a.memswapLimit == b.memswapLimit
    case ClaudeMount => a.claudeMount == b.claudeMount
    case ClaudeMountPath => a.claudePath == b.claudePath
    case NamedVolumes => a.namedVolumes == b.namedVolumes
    case SiblingsField => a.siblings == b.siblings
    case ConfigVolume => a.configVolume == b.configVolume
    case AllowChatAccess => a.allowChatAccess == b.allowChatAccess
    case OtherFields => a.other == b.other
    case ConfigSchema => true
  }

  function ChangedIn(fields: seq<Field>, a: Component, b: Component): seq<Field> {
    if fields == [] then []
    else (if SameField(a, b, fields[0]) then [] else [fields[0]]) + ChangedIn(fields[1..], a, b)
  }

  // ---- The whole refresh -------------------------------------------------------------------------

  /** What fetching and parsing the component's repository yields. */
  datatype Fetched = FetchFailed | NoCompose | Unparsable | Parsed(spec: Spec)

  datatype Reply =
    | NotFound | BadRequest | Unprocessable | Conflict | PortsExhausted
    | Refreshed(config: Component, changed: seq<Field>, preserved: Report)

  /** The component store, the stored schema templates and the images tracked by the service records. */
  datatype Plane = Plane(components: map<string, Component>, templates: map<string, string>, images: map<string,
                         string>)

  function HostPorts(c: Component): set<int> {
    Hosts(c.ports) + set i, p | 0 <= i < |c.siblings| && p in Hosts(c.siblings[i].ports) :: p
  }

  function Occupied(components: map<string, Component>, own: int, exclude: string): set<int> {
    {own} + set n, p | n in components && n != exclude && p in HostPorts(components[n]) :: p
  }

  function SchemaChanged(plane: Plane, name: string, spec: Spec): seq<Field> {
    if spec.schema.Some? && !(name in plane.templates && plane.templates[name] == spec.schema.value)
    then [ConfigSchema] else []
  }

  function Stored(plane: Plane, name: string, config: Component, spec: Spec): Plane {
    Plane(plane.components[name := config],
          if spec.schema.Some? then plane.templates[name := spec.schema.value] else plane.templates,
          if config.image != "" && name in plane.images then plane.images[name := config.image] else plane.images)
  }

  datatype Refresh = Refresh(plane: Plane, reply: Reply)

  function Refreshing(plane: Plane, name: string, own: int, fetched: Fetched, allowClear: bool): Refresh {
    if name !in plane.components then Refresh(plane, NotFound)
    else if plane.components[name].gitUrl == "" then Refresh(plane, BadRequest)
    else match fetched
      case FetchFailed => Refresh(plane, Unprocessable)
      case NoCompose => Refresh(plane, NotFound)
      case Unparsable => Refresh(plane, Unprocessable)
      case Parsed(spec) =>
        var cfg := plane.components[name];
        var config := Rebuilt(name, cfg, spec, Occupied(plane.components, own, name));
        if config.None? then Refresh(plane, PortsExhausted)
        else if Blanks(cfg, config.value) && !allowClear then Refresh(plane, Conflict)
        else Refresh(Stored(plane, name, config.value, spec),
                     Refreshed(config.value,
                               ChangedIn(CONTRACT_FIELDS, cfg, config.value) + SchemaChanged(plane, name, spec),
                               Reported(cfg, spec)))
  }
}
