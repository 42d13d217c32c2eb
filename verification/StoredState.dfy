// The stored state of a child and how each kind of record is reconciled with the live one
// (src/rtcr/checkpointer.cc, the _prepare_*, _create_stored_* and _destroy_stored_* methods).
module StoredState {
  import opened InfoList
  import opened CapMap
  import opened CopyTable
  import opened Reconcile
  import opened RamIdentify

  // ---- Live objects, as intercepted ----

  datatype RamDs = RamDs(badge: nat, size: nat, cached: nat, bootstrapped: bool, managed: bool, timestamp: nat)
  datatype Region = Region(dsBadge: nat, size: nat, offset: nat, relAddr: nat, executable: bool, bootstrapped: bool)
  datatype MapHead = MapHead(badge: nat, dsBadge: nat, size: nat, sigh: nat, bootstrapped: bool)
  datatype SessionHead = SessionHead(badge: nat, creationArgs: string, upgradeArgs: string, bootstrapped: bool)

  // An object with the objects it owns, in list order.
  datatype Node<+H, +C> = Node(head: H, kids: seq<C>)

  type RegionMap = Node<MapHead, Region>
  type RamSession = Node<SessionHead, RamDs>
  // PD and RM sessions; a PD session owns its address space, stack area and linker area.
  type RmSession = Node<SessionHead, RegionMap>

  // ---- Stored records ----

  datatype StoredRamDs = StoredRamDs(kcap: nat, badge: nat, bootstrapped: bool, copy: nat, size: nat, cached: nat,
                                     managed: bool, timestamp: nat)
  // copy is missing for the dataspace of a region map, which has no content of its own.
  datatype StoredRegion = StoredRegion(kcap: nat, bootstrapped: bool, dsBadge: nat, copy: Option<nat>, size: nat,
                                       offset: nat, relAddr: nat, executable: bool)
  datatype StoredMapHead = StoredMapHead(kcap: nat, badge: nat, bootstrapped: bool, size: nat, dsBadge: nat, sigh: nat)
  datatype StoredSessionHead = StoredSessionHead(kcap: nat, badge: nat, bootstrapped: bool, creationArgs: string, upgradeArgs: string)

  type StoredMap = Node<StoredMapHead, StoredRegion>
  type StoredRamSession = Node<StoredSessionHead, StoredRamDs>
  type StoredRmSession = Node<StoredSessionHead, StoredMap>

  // _find_kcap_by_badge
  function KcapOf(caps: seq<CapKcap>, badge: nat): nat {
    match Find(caps, (e: CapKcap) => e.badge == badge)
    case Some(e) => e.kcap
    case None => 0
  }

  // ---- RAM dataspaces ----

  function CreateRamDs(caps: seq<CapKcap>, l: RamDs, c: Copies): (StoredRamDs, Copies) {
    var c' := AddRef(c, l.badge, l.size);
    (StoredRamDs(KcapOf(caps, l.badge), l.badge, l.bootstrapped, CopyIn(c', l.badge), l.size, l.cached, l.managed, l.timestamp), c')
  }

  function CopyIn(c: Copies, badge: nat): nat {
    match Lookup(c.table, badge)
    case Some(e) => e.copy
    case None => 0
  }

  function RamDsKind(caps: seq<CapKcap>): Kind<StoredRamDs, RamDs> {
    Kind((s: StoredRamDs, l: RamDs) => s.badge == l.badge,
         (l: RamDs, s: StoredRamDs) => l.badge == s.badge,
         (l: RamDs, c: Copies) => CreateRamDs(caps, l, c),
         (s: StoredRamDs, l: RamDs, c: Copies) => (s, c),
         (s: StoredRamDs, c: Copies) => DropRef(c, s.badge))
  }

  // The part of a RAM dataspace that the restorer's matcher looks at.
  function Entries(stored: seq<StoredRamDs>): (r: seq<Entry>)
    ensures |r| == |stored| && forall i :: 0 <= i < |r| ==> r[i] == Entry(stored[i].badge, stored[i].timestamp, stored[i].bootstrapped)
  {
    seq(|stored|, i requires 0 <= i < |stored| => Entry(stored[i].badge, stored[i].timestamp, stored[i].bootstrapped))
  }

  function LiveEntries(live: seq<RamDs>): (r: seq<Entry>)
    ensures |r| == |live| && forall i :: 0 <= i < |r| ==> r[i] == Entry(live[i].badge, live[i].timestamp, live[i].bootstrapped)
  {
    seq(|live|, i requires 0 <= i < |live| => Entry(live[i].badge, live[i].timestamp, live[i].bootstrapped))
  }

  // ---- Attached regions ----

  // find_by_addr of both lists: the interval includes the end of the region.
  predicate Covers(addr: nat, size: nat, at: nat) {
    addr <= at <= addr + size
  }

  // maps are the badges of the dataspaces of the child's region maps.
  function CreateRegion(caps: seq<CapKcap>, maps: set<nat>, l: Region, c: Copies): (StoredRegion, Copies) {
    var c' := if Lookup(c.table, l.dsBadge).Some? || l.dsBadge !in maps then AddRef(c, l.dsBadge, l.size) else c;
    var copy := if Lookup(c.table, l.dsBadge).Some? || l.dsBadge !in maps then Some(CopyIn(c', l.dsBadge)) else None;
    (StoredRegion(KcapOf(caps, l.dsBadge), l.bootstrapped, l.dsBadge, copy, l.size, l.offset, l.relAddr, l.executable), c')
  }

  function RegionKind(caps: seq<CapKcap>, maps: set<nat>): Kind<StoredRegion, Region> {
    Kind((s: StoredRegion, l: Region) => Covers(s.relAddr, s.size, l.relAddr),
         (l: Region, s: StoredRegion) => Covers(l.relAddr, l.size, s.relAddr),
         (l: Region, c: Copies) => CreateRegion(caps, maps, l, c),
         (s: StoredRegion, l: Region, c: Copies) => (s, c),
         (s: StoredRegion, c: Copies) => DropRef(c, s.dsBadge))
  }

  // ---- Objects that own a list ----

  function Nested<H, C, G, D>(child: Kind<C, D>, same: (H, G) -> bool, make: G -> H, refresh: (H, G) -> H, seed: Node<G, D> -> seq<C>)
    : Kind<Node<H, C>, Node<G, D>>
  {
    Kind((s: Node<H, C>, l: Node<G, D>) => same(s.head, l.head),
         (l: Node<G, D>, s: Node<H, C>) => same(s.head, l.head),
         (l: Node<G, D>, c: Copies) => (Node(make(l.head), seed(l)), c),
         (s: Node<H, C>, l: Node<G, D>, c: Copies) =>
           var (kids, c') := Prepare(child, s.kids, l.kids, c); (Node(refresh(s.head, l.head), kids), c'),
         (s: Node<H, C>, c: Copies) => DestroyAll(child, s.kids, c))
  }

  function MakeMap(caps: seq<CapKcap>, h: MapHead): StoredMapHead {
    StoredMapHead(KcapOf(caps, h.badge), h.badge, h.bootstrapped, h.size, h.dsBadge, h.sigh)
  }

  function MakeSession(caps: seq<CapKcap>, h: SessionHead): StoredSessionHead {
    StoredSessionHead(KcapOf(caps, h.badge), h.badge, h.bootstrapped, h.creationArgs, h.upgradeArgs)
  }

  function MapKind(caps: seq<CapKcap>, maps: set<nat>): Kind<StoredMap, RegionMap> {
    Nested(RegionKind(caps, maps),
           (s: StoredMapHead, l: MapHead) => s.badge == l.badge,
           (l: MapHead) => MakeMap(caps, l),
           (s: StoredMapHead, l: MapHead) => s.(sigh := l.sigh),
           (l: RegionMap) => [])
  }

  function SameSession(s: StoredSessionHead, l: SessionHead): bool {
    s.badge == l.badge
  }

  function RamSessionKind(caps: seq<CapKcap>): Kind<StoredRamSession, RamSession> {
    Nested(RamDsKind(caps), SameSession, (l: SessionHead) => MakeSession(caps, l),
           (s: StoredSessionHead, l: SessionHead) => s, (l: RamSession) => [])
  }

  function RmSessionKind(caps: seq<CapKcap>, maps: set<nat>): Kind<StoredRmSession, RmSession> {
    Nested(MapKind(caps, maps), SameSession, (l: SessionHead) => MakeSession(caps, l),
           (s: StoredSessionHead, l: SessionHead) => s, (l: RmSession) => [])
  }

  // A stored PD session is created together with records of its three region maps, still empty.
  function PdSeed(caps: seq<CapKcap>, l: RmSession): (r: seq<StoredMap>)
    ensures |r| == |l.kids| && forall i :: 0 <= i < |r| ==> r[i] == Node(MakeMap(caps, l.kids[i].head), [])
  {
    seq(|l.kids|, i requires 0 <= i < |l.kids| => Node(MakeMap(caps, l.kids[i].head), []))
  }

  function PdAsRm(caps: seq<CapKcap>, maps: set<nat>): Kind<StoredRmSession, RmSession> {
    Nested(MapKind(caps, maps), SameSession, (l: SessionHead) => MakeSession(caps, l),
           (s: StoredSessionHead, l: SessionHead) => s, (l: RmSession) => PdSeed(caps, l))
  }

  // It is destroyed from the linker area to the address space, that is, from the last kid to the first.
  function PdSessionKind(caps: seq<CapKcap>, maps: set<nat>): Kind<StoredRmSession, RmSession> {
    PdAsRm(caps, maps).(destroy := (s: StoredRmSession, c: Copies) => DestroyAll(MapKind(caps, maps), Reverse(s.kids), c))
  }

  // Sessions and region maps are found by badge, and updated by reconciling what they own.
  ghost predicate ByBadge<C(!new), D(!new)>(kind: Kind<Node<StoredSessionHead, C>, Node<SessionHead, D>>, child: Kind<C, D>) {
    && (forall s, l :: kind.found(s, l) <==> s.head.badge == l.head.badge)
    && (forall s, l :: kind.alive(l, s) <==> s.head.badge == l.head.badge)
    && (forall s, l, c :: kind.update(s, l, c) == (Node(s.head, Prepare(child, s.kids, l.kids, c).0), Prepare(child, s.kids, l.kids, c).1))
  }

  lemma SessionsByBadge(caps: seq<CapKcap>, maps: set<nat>)
    ensures ByBadge(RamSessionKind(caps), RamDsKind(caps))
    ensures ByBadge(RmSessionKind(caps, maps), MapKind(caps, maps))
    ensures ByBadge(PdSessionKind(caps, maps), MapKind(caps, maps))
  {
    var ram, rm, pd := RamSessionKind(caps), RmSessionKind(caps, maps), PdSessionKind(caps, maps);
    forall s, l ensures ram.found(s, l) == SameSession(s.head, l.head) && ram.alive(l, s) == SameSession(s.head, l.head) {
    }
    forall s, l ensures rm.found(s, l) == SameSession(s.head, l.head) && rm.alive(l, s) == SameSession(s.head, l.head) {
    }
    forall s, l ensures pd.found(s, l) == SameSession(s.head, l.head) && pd.alive(l, s) == SameSession(s.head, l.head) {
    }
  }

  // ---- The reconciliation of a whole checkpoint ----

  // The child as a checkpoint finds it, with the capability map just read.
  datatype World = World(ram: seq<RamSession>, pd: seq<RmSession>, rm: seq<RmSession>, caps: seq<CapKcap>)

  // _create_region_map_dataspaces
  function MapBadges(maps: seq<RegionMap>): set<nat> {
    set m | m in maps :: m.head.dsBadge
  }

  function SessionMapBadges(sessions: seq<RmSession>): set<nat> {
    set s, b | s in sessions && b in MapBadges(s.kids) :: b
  }

  lemma MapBadgesNext(maps: seq<RegionMap>, j: nat)
    requires j < |maps|
    ensures MapBadges(maps[..j + 1]) == MapBadges(maps[..j]) + {maps[j].head.dsBadge}
  {
    assert maps[..j + 1] == maps[..j] + [maps[j]];
  }

  lemma SessionMapBadgesNext(sessions: seq<RmSession>, i: nat)
    requires i < |sessions|
    ensures SessionMapBadges(sessions[..i + 1]) == SessionMapBadges(sessions[..i]) + MapBadges(sessions[i].kids)
  {
    assert sessions[..i + 1] == sessions[..i] + [sessions[i]];
  }

  function Maps(w: World): set<nat> {
    SessionMapBadges(w.pd) + SessionMapBadges(w.rm)
  }

  datatype Stored = Stored(ram: seq<StoredRamSession>, pd: seq<StoredRmSession>, rm: seq<StoredRmSession>)

  // RAM sessions first: a RAM dataspace gets its copy before any attachment of it is seen.
  function Checkpoint(s: Stored, w: World, c: Copies): (Stored, Copies) {
    var (ram, c1) := Prepare(RamSessionKind(w.caps), s.ram, w.ram, c);
    var (pd, c2) := Prepare(PdSessionKind(w.caps, Maps(w)), s.pd, w.pd, c1);
    var (rm, c3) := Prepare(RmSessionKind(w.caps, Maps(w)), s.rm, w.rm, c2);
    (Stored(ram, pd, rm), c3)
  }

  lemma CheckpointIs(s: Stored, w: World, c: Copies, s': Stored, c1: Copies, c2: Copies, c3: Copies)
    requires (s'.ram, c1) == Prepare(RamSessionKind(w.caps), s.ram, w.ram, c)
    requires (s'.pd, c2) == Prepare(PdSessionKind(w.caps, Maps(w)), s.pd, w.pd, c1)
    requires (s'.rm, c3) == Prepare(RmSessionKind(w.caps, Maps(w)), s.rm, w.rm, c2)
    ensures Checkpoint(s, w, c) == (s', c3)
  {
  }
}
