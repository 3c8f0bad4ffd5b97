/** The mind-map tables of a journal as a value, what each operation of
    `src/mindmap.rs` makes of them, and the tree they keep over every run. */
module MapStore {
  import opened Base
  import opened Text

  datatype Layout = MindMap | FlowChart

  datatype Kind =
    | Topic | Goal | Fact | Hypothesis | Question | Decision | Idea | Task | DeadEnd | Note
    | Start | End | Process | Io | Subprocess | Document | Data | Manual | Prep | Connector | Delay
    | And | Or | Not | Nand | Nor | Xor | Xnor

  /** The kinds a map's layout knows; a note and a decision exist in both. */
  predicate Allowed(k: Kind, layout: Layout) {
    match layout
    case MindMap =>
      || k.Topic? || k.Goal? || k.Fact? || k.Hypothesis? || k.Question? || k.Decision? || k.Idea? || k.Task?
      || k.DeadEnd? || k.Note?
    case FlowChart =>
      !(k.Topic? || k.Goal? || k.Fact? || k.Hypothesis? || k.Question? || k.Idea? || k.Task? || k.DeadEnd?)
  }

  datatype NodeState = Open | Done | Dropped

  const MAX_TEXT_CHARS := 2_000
  const MAX_TITLE_CHARS := 200
  const MAX_NODES := 2_000
  const MAX_CHAIN_STEPS := 200

  datatype MapRow = MapRow(
    title: string, nick: string, host: Option<string>, open: bool, shared: bool,
    layout: Layout, right: bool, createdAt: int, updatedAt: int)

  datatype NodeRow = NodeRow(
    map_: int, parent: Option<int>, kind: Kind, text: string, state: NodeState, ord: int, createdAt: int,
      author: Option<string>)

  datatype EdgeRow = EdgeRow(map_: int, from: int, to: int, caption: string)

  /** A chain keeps the entries it was made of as its signature. Its steps have
      places; the place of a deleted entry stays empty. */
  datatype ChainRow = ChainRow(map_: int, name: string, signature: seq<int>, steps: seq<Option<int>>, createdAt: int)

  /** Entries put on places 0, 1, 2, … */
  function Slots(es: seq<int>): seq<Option<int>> { seq(|es|, i requires 0 <= i < |es| => Some(es[i])) }

  /** The entries a chain still holds, in the order of their places. */
  function Held(steps: seq<Option<int>>): seq<int> {
    if steps == [] then []
    else (match steps[0] case None => [] case Some(e) => [e]) + Held(steps[1..])
  }

  lemma {:induction false} HeldSlots(es: seq<int>)
    ensures Held(Slots(es)) == es
  {
    if es != [] {
      assert Slots(es)[1..] == Slots(es[1..]);
      HeldSlots(es[1..]);
    }
  }

  type Nodes = map<int, NodeRow>

  datatype Store = Store(
    entries: set<int>,
    maps: map<int, MapRow>,
    nodes: Nodes,
    edges: map<int, EdgeRow>,
    nodeRefs: set<(int, int)>,
    edgeRefs: set<(int, int)>,
    chains: map<int, ChainRow>)

  // ---------------------------------------------------------------------
  // Ancestors.

  /** The ancestor `k` steps up, if the chain of parents is that long. */
  function Up(nodes: Nodes, n: int, k: nat): Option<int>
    decreases k
  {
    if k == 0 then Some(n)
    else if n in nodes && nodes[n].parent.Some? then Up(nodes, nodes[n].parent.value, k - 1)
    else None
  }

  /** `n` is `a` or lies under it. */
  ghost predicate Under(nodes: Nodes, n: int, a: int) {
    exists k: nat :: Up(nodes, n, k) == Some(a)
  }

  ghost function Subtree(nodes: Nodes, a: int): set<int> {
    set n | n in nodes && Under(nodes, n, a)
  }

  function NodesOf(nodes: Nodes, m: int): set<int> {
    set n | n in nodes && nodes[n].map_ == m
  }

  // ---------------------------------------------------------------------
  // What every run keeps.

  /** Parents exist, in the same map, strictly above. */
  ghost predicate Ranked(nodes: Nodes, rank: map<int, int>) {
    forall n | n in nodes :: RankOk(nodes, rank, n)
  }

  ghost predicate RankOk(nodes: Nodes, rank: map<int, int>, n: int)
    requires n in nodes
  {
    n in rank &&
    match nodes[n].parent
    case None => true
    case Some(p) => p in nodes && nodes[p].map_ == nodes[n].map_ && p in rank && rank[p] < rank[n]
  }

  /** `r` is the one parentless node of map `m`, its topic, holding the title. */
  ghost predicate IsRoot(s: Store, m: int, r: int) {
    && m in s.maps && r in s.nodes
    && s.nodes[r].map_ == m && s.nodes[r].parent.None? && s.nodes[r].kind.Topic? && s.nodes[r].text == s.maps[m].title
    && forall n | n in s.nodes && s.nodes[n].map_ == m && n != r :: s.nodes[n].parent.Some? && !s.nodes[n].kind.Topic?
  }

  /** Every step is an entry there is. */
  predicate StepsKnown(steps: seq<Option<int>>, entries: set<int>) {
    forall i | 0 <= i < |steps| && steps[i].Some? :: steps[i].value in entries
  }

  ghost predicate ChainOk(s: Store, c: int)
    requires c in s.chains
  {
    s.chains[c].map_ in s.maps && StepsKnown(s.chains[c].steps, s.entries)
  }

  /** Names and signatures are unique in a map. */
  ghost predicate ChainsDistinct(s: Store) {
    forall c, d | c in s.chains && d in s.chains && c != d && s.chains[c].map_ == s.chains[d].map_ ::
      s.chains[c].name != s.chains[d].name && s.chains[c].signature != s.chains[d].signature
  }

  ghost predicate EdgesOk(s: Store) {
    && (forall e | e in s.edges ::
          && s.edges[e].from in s.nodes && s.edges[e].to in s.nodes && s.edges[e].from != s.edges[e].to
          && s.nodes[s.edges[e].from].map_ == s.edges[e].map_ == s.nodes[s.edges[e].to].map_)
    && (forall e, f | e in s.edges && f in s.edges && e != f :: s.edges[e] != s.edges[f])
  }

  ghost predicate RefsOk(s: Store) {
    && (forall r | r in s.nodeRefs :: r.0 in s.nodes && r.1 in s.entries)
    && (forall r | r in s.edgeRefs :: r.0 in s.edges && r.1 in s.entries)
  }

  ghost predicate KindFits(s: Store, n: int)
    requires n in s.nodes && s.nodes[n].map_ in s.maps
  {
    s.nodes[n].kind.Topic? || Allowed(s.nodes[n].kind, s.maps[s.nodes[n].map_].layout)
  }

  ghost predicate NodesOk(s: Store) {
    && (forall n | n in s.nodes :: s.nodes[n].map_ in s.maps && KindFits(s, n))
    && (exists rank :: Ranked(s.nodes, rank))
  }

  /** Every map is one tree around its topic; everything points at what exists. */
  ghost predicate WellFormed(s: Store) {
    && NodesOk(s) && (forall m | m in s.maps :: exists r :: IsRoot(s, m, r))
    && EdgesOk(s) && RefsOk(s)
    && (forall c | c in s.chains :: ChainOk(s, c)) && ChainsDistinct(s)
  }

  ghost function RootOf(s: Store, m: int): (r: int)
    requires exists r :: IsRoot(s, m, r)
    ensures IsRoot(s, m, r)
  {
    var r :| IsRoot(s, m, r); r
  }

  // ---------------------------------------------------------------------
  // Operations.

  datatype Error =
    | NoMap | MapClosed | NoNode | NoEdge | NoEntry | NoName | UnknownKind | TopicKind | RootKind | EmptyText | LongText
    | NotATree | NotAFlow | TooMany | RootStays | Cycle | SameNode | NoRefs | ShortChain | LongChain | Repeated
    | NameTaken | SequenceTaken | NoChain

  /** `clean_text`. */
  function CleanText(raw: string, max: nat): Result<string, Error> {
    var t := Trim(raw);
    if t == "" then Err(EmptyText) else if |t| > max then Err(LongText) else Ok(t)
  }

  /** The map exists and is open. */
  function Writable(s: Store, m: int): Option<Error> {
    if m !in s.maps then Some(NoMap) else if !s.maps[m].open then Some(MapClosed) else None
  }

  predicate InMap(s: Store, m: int, n: int) { n in s.nodes && s.nodes[n].map_ == m }

  predicate EdgeInMap(s: Store, m: int, e: int) { e in s.edges && s.edges[e].map_ == m }

  function Touch(s: Store, m: int, now: int): Store
    requires m in s.maps
  {
    s.(maps := s.maps[m := s.maps[m].(updatedAt := now)])
  }

  ghost function CreateSpec(s: Store, title: string, nick: string, host: Option<string>, layout: Layout, right: bool,
                            shared: bool, now: int): Result<(Store, int), Error> {
    match CleanText(title, MAX_TITLE_CHARS)
    case Err(e) => Err(e)
    case Ok(t) =>
      if Trim(nick) == "" then Err(NoName)
      else
        var m, r := NextRowId(s.maps.Keys), NextRowId(s.nodes.Keys);
        Ok((Planted(s, m, r, MapRow(t, nick, host, true, shared, layout, right, now, now)), m))
  }

  /** A new map with its topic, which holds the title. */
  function Planted(s: Store, m: int, r: int, row: MapRow): Store {
    s.(maps := s.maps[m := row], nodes :=
      s.nodes[r := NodeRow(m, None, Topic, row.title, Open, 0, row.createdAt, None)])
  }

  ghost function Ords(nodes: Nodes, p: int): set<int> {
    set n | n in nodes && nodes[n].parent == Some(p) :: nodes[n].ord
  }

  /** `COALESCE(MAX(ord), -1) + 1` over the children of `p`. */
  ghost function NextOrd(nodes: Nodes, p: int): int {
    if Ords(nodes, p) == {} then 0 else MaxOf(Ords(nodes, p)) + 1
  }

  datatype NewNode = NewNode(parent: Option<int>, after: Option<int>, caption: string, kind: Option<Kind>, text: string,
    refs: set<int>, author: Option<string>)

  ghost function AddSpec(s: Store, m: int, spec: NewNode, now: int): Result<(Store, int), Error> {
    if m !in s.maps then Err(NoMap)
    else
      var flow := s.maps[m].layout.FlowChart?;
      var kind := if spec.kind.None? then (if flow then Process else Note) else spec.kind.value;
      if !Allowed(kind, s.maps[m].layout) then Err(UnknownKind)
      else if kind.Topic? then Err(TopicKind)
      else match CleanText(spec.text, MAX_TEXT_CHARS)
        case Err(e) => Err(e)
        case Ok(text) =>
          if flow && spec.parent.Some? then Err(NotATree)
          else if !flow && spec.after.Some? then Err(NotAFlow)
          else if !s.maps[m].open then Err(MapClosed)
          else if spec.parent.Some? && !InMap(s, m, spec.parent.value) then Err(NoNode)
          else if spec.after.Some? && !InMap(s, m, spec.after.value) then Err(NoNode)
          else if |NodesOf(s.nodes, m)| >= MAX_NODES then Err(TooMany)
          else if !(spec.refs <= s.entries) then Err(NoEntry)
          else if !exists r :: IsRoot(s, m, r) then Err(NoNode)
          else
            var p := if spec.parent.Some? then spec.parent.value else RootOf(s, m);
            Ok((AddedNode(s, m, p, kind, text, spec, now), NextRowId(s.nodes.Keys)))
  }

  ghost function AddedNode(s: Store, m: int, p: int, kind: Kind, text: string, spec: NewNode, now: int): Store
    requires m in s.maps
  {
    var id := NextRowId(s.nodes.Keys);
    var s1 := s.(nodes := s.nodes[id := NodeRow(m, Some(p), kind, text, Open, NextOrd(s.nodes, p), now, spec.author)],
                 nodeRefs := s.nodeRefs + set e | e in spec.refs :: (id, e));
    var s2 := if spec.after.None? then s1
              else s1.(edges := s1.edges[NextRowId(s1.edges.Keys) :=
                EdgeRow(m, spec.after.value, id, Trim(spec.caption))]);
    Touch(s2, m, now)
  }

  /** The root stays the only topic; its text is the map's title. */
  ghost function EditSpec(s: Store, m: int, n: int, text: Option<string>, kind: Option<Kind>, now: int): Result<Store,
      Error> {
    if Writable(s, m).Some? then Err(Writable(s, m).value)
    else if !InMap(s, m, n) then Err(NoNode)
    else
      var root := s.nodes[n].parent.None?;
      if kind.Some? && !root && !Allowed(kind.value, s.maps[m].layout) then Err(UnknownKind)
      else if kind.Some? && root != kind.value.Topic? then Err(RootKind)
      else
        var k := if kind.Some? then kind.value else s.nodes[n].kind;
        if text.None? then Ok(Edited(s, m, n, k, s.nodes[n].text, now))
        else match CleanText(text.value, if root then MAX_TITLE_CHARS else MAX_TEXT_CHARS)
          case Err(e) => Err(e)
          case Ok(t) => Ok(Edited(s, m, n, k, t, now))
  }

  function Edited(s: Store, m: int, n: int, k: Kind, t: string, now: int): Store
    requires m in s.maps && n in s.nodes
  {
    var s1 := s.(nodes := s.nodes[n := s.nodes[n].(kind := k, text := t)]);
    Touch(if s.nodes[n].parent.None? && t != s.nodes[n].text then s1.(maps := s1.maps[m := s1.maps[m].(title := t)])
      else s1, m, now)
  }

  /** A node moves anywhere in its map but into its own subtree. */
  ghost function MoveSpec(s: Store, m: int, n: int, p: int, now: int): Result<Store, Error> {
    if Writable(s, m).Some? then Err(Writable(s, m).value)
    else if !InMap(s, m, n) || !InMap(s, m, p) then Err(NoNode)
    else if s.maps[m].layout.FlowChart? then Err(NotATree)
    else if s.nodes[n].parent.None? then Err(RootStays)
    else if Under(s.nodes, p, n) then Err(Cycle)
    else Ok(Touch(s.(nodes := s.nodes[n := s.nodes[n].(parent := Some(p), ord := NextOrd(s.nodes, p))]), m, now))
  }

  ghost function SetNodeStateSpec(s: Store, m: int, n: int, st: NodeState, now: int): Result<Store, Error> {
    if Writable(s, m).Some? then Err(Writable(s, m).value)
    else if !InMap(s, m, n) then Err(NoNode)
    else if s.nodes[n].parent.None? then Err(RootStays)
    else Ok(Touch(s.(nodes := s.nodes[n := s.nodes[n].(state := st)]), m, now))
  }

  /** Rows that a deleted node takes along: arrows, references. */
  ghost function WithoutNodes(s: Store, gone: set<int>): Store {
    var edges := map e | e in s.edges && s.edges[e].from !in gone && s.edges[e].to !in gone :: s.edges[e];
    s.(nodes := s.nodes - gone, edges := edges,
       nodeRefs := (set r | r in s.nodeRefs && r.0 !in gone),
       edgeRefs := (set r | r in s.edgeRefs && r.0 in edges))
  }

  /** Removing a node removes its subtree; answers how many nodes went. */
  ghost function RemoveSpec(s: Store, m: int, n: int, now: int): Result<(Store, nat), Error> {
    if Writable(s, m).Some? then Err(Writable(s, m).value)
    else if !InMap(s, m, n) then Err(NoNode)
    else if s.nodes[n].parent.None? then Err(RootStays)
    else Ok((Touch(WithoutNodes(s, Subtree(s.nodes, n)), m, now), |Subtree(s.nodes, n)|))
  }

  ghost function AddEdgeSpec(s: Store, m: int, from: int, to: int, caption: string, refs: set<int>,
                             now: int): Result<(Store, int), Error> {
    if from == to then Err(SameNode)
    else if |Trim(caption)| > MAX_TITLE_CHARS then Err(LongText)
    else if Writable(s, m).Some? then Err(Writable(s, m).value)
    else if !InMap(s, m, from) || !InMap(s, m, to) then Err(NoNode)
    else if !(refs <= s.entries) then Err(NoEntry)
    else
      var row := EdgeRow(m, from, to, Trim(caption));
      var id := if exists e :: e in s.edges && s.edges[e] == row then EdgeOf(s, row) else NextRowId(s.edges.Keys);
      Ok((WithEdge(s, m, id, row, refs, now), id))
  }

  ghost function WithEdge(s: Store, m: int, id: int, row: EdgeRow, refs: set<int>, now: int): Store
    requires m in s.maps
  {
    Touch(s.(edges := s.edges[id := row], edgeRefs := s.edgeRefs + set e | e in refs :: (id, e)), m, now)
  }

  ghost function EdgeOf(s: Store, row: EdgeRow): (e: int)
    requires exists e :: e in s.edges && s.edges[e] == row
    ensures e in s.edges && s.edges[e] == row
  {
    var e :| e in s.edges && s.edges[e] == row; e
  }

  ghost function RemoveEdgeSpec(s: Store, m: int, e: int, now: int): Result<Store, Error> {
    if Writable(s, m).Some? then Err(Writable(s, m).value)
    else if !EdgeInMap(s, m, e) then Err(NoEdge)
    else Ok(Touch(s.(edges := s.edges - {e}, edgeRefs := (set r | r in s.edgeRefs && r.0 != e)), m, now))
  }

  datatype Target = OnNode(id: int) | OnEdge(id: int)

  /** The entries a node or an arrow points at. */
  function RefsAt(s: Store, at: Target): set<int> {
    match at
    case OnNode(id) => set r | r in s.nodeRefs && r.0 == id :: r.1
    case OnEdge(id) => set r | r in s.edgeRefs && r.0 == id :: r.1
  }

  ghost function AddRefsSpec(s: Store, m: int, at: Target, refs: set<int>, now: int): Result<Store, Error> {
    if refs == {} then Err(NoRefs)
    else if Writable(s, m).Some? then Err(Writable(s, m).value)
    else if at.OnNode? && !InMap(s, m, at.id) then Err(NoNode)
    else if at.OnEdge? && !EdgeInMap(s, m, at.id) then Err(NoEdge)
    else if !(refs <= s.entries) then Err(NoEntry)
    else if at.OnNode? then Ok(Touch(s.(nodeRefs := s.nodeRefs + set e | e in refs :: (at.id, e)), m, now))
    else Ok(Touch(s.(edgeRefs := s.edgeRefs + set e | e in refs :: (at.id, e)), m, now))
  }

  ghost function RemoveRefsSpec(s: Store, m: int, at: Target, refs: set<int>, now: int): Result<Store, Error> {
    if Writable(s, m).Some? then Err(Writable(s, m).value)
    else if at.OnNode? && !InMap(s, m, at.id) then Err(NoNode)
    else if at.OnEdge? && !EdgeInMap(s, m, at.id) then Err(NoEdge)
    else if at.OnNode? then Ok(Touch(s.(nodeRefs := s.nodeRefs - set e | e in refs :: (at.id, e)), m, now))
    else Ok(Touch(s.(edgeRefs := s.edgeRefs - set e | e in refs :: (at.id, e)), m, now))
  }

  ghost function AddChainSpec(s: Store, m: int, name: string, entries: seq<int>, now: int): Result<(Store, int),
      Error> {
    match CleanText(name, MAX_TITLE_CHARS)
    case Err(e) => Err(e)
    case Ok(name) =>
      if |entries| < 2 then Err(ShortChain)
      else if |entries| > MAX_CHAIN_STEPS then Err(LongChain)
      else if !NoDup(entries) then Err(Repeated)
      else if Writable(s, m).Some? then Err(Writable(s, m).value)
      else if !(Elems(entries) <= s.entries) then Err(NoEntry)
      else if exists c :: c in s.chains && s.chains[c].map_ == m && s.chains[c].name == name then Err(NameTaken)
      else if exists c ::
          c in s.chains && s.chains[c].map_ == m && s.chains[c].signature == entries then Err(SequenceTaken)
      else
        var id := NextRowId(s.chains.Keys);
        Ok((WithChain(s, m, id, name, entries, now), id))
  }

  function WithChain(s: Store, m: int, id: int, name: string, entries: seq<int>, now: int): Store
    requires m in s.maps
  {
    Touch(s.(chains := s.chains[id := ChainRow(m, name, entries, Slots(entries), now)]), m, now)
  }

  ghost function RemoveChainSpec(s: Store, m: int, name: string, now: int): Result<Store, Error> {
    if Writable(s, m).Some? then Err(Writable(s, m).value)
    else if !exists c :: c in s.chains && s.chains[c].map_ == m && s.chains[c].name == Trim(name) then Err(NoName)
    else Ok(Touch(s.(chains := map c | c in s.chains && !(s.chains[c].map_ == m && s.chains[c].name == Trim(name)) ::
      s.chains[c]), m, now))
  }

  ghost function SetStateSpec(s: Store, m: int, open: bool, now: int): Result<Store, Error> {
    if m !in s.maps then Err(NoMap)
    else Ok(Touch(s.(maps := s.maps[m := s.maps[m].(open := open)]), m, now))
  }

  ghost function DeleteSpec(s: Store, m: int): Result<Store, Error> {
    if m !in s.maps then Err(NoMap)
    else
      var edges := map e | e in s.edges && s.edges[e].map_ != m :: s.edges[e];
      Ok(s.(maps := s.maps - {m},
            nodes := (map n | n in s.nodes && s.nodes[n].map_ != m :: s.nodes[n]),
            edges := edges,
            nodeRefs := (set r | r in s.nodeRefs && r.0 in s.nodes && s.nodes[r.0].map_ != m),
            edgeRefs := (set r | r in s.edgeRefs && r.0 in edges),
            chains := (map c | c in s.chains && s.chains[c].map_ != m :: s.chains[c])))
  }

  function Keep(steps: seq<Option<int>>, gone: int): seq<Option<int>> {
    seq(|steps|, i requires 0 <= i < |steps| => if steps[i] == Some(gone) then None else steps[i])
  }

  /** A journal entry is deleted: references to it and chain steps go, the
      stored signature stays. */
  ghost function ForgetSpec(s: Store, e: int): Store {
    s.(entries := s.entries - {e},
       nodeRefs := (set r | r in s.nodeRefs && r.1 != e),
       edgeRefs := (set r | r in s.edgeRefs && r.1 != e),
       chains := (map c | c in s.chains :: s.chains[c].(steps := Keep(s.chains[c].steps, e))))
  }
}
