/**
 The SPV pipeline as a state machine over atomic handlers (`header-store.ts`, `spv.ts`,
 `confirmation-poller.ts`).

 Tables are maps. A provider's answer is an argument of the handler that asks for it, so a
 run quantifies over every possible answer. `provenRoot` is a history variable: the merkle
 root a row's last positive verdict was made against. It is read by no handler.
 */
module SpvPipeline {
  import opened Options
  import opened Hex
  import opened Numbers
  import opened BlockMerkle
  import opened BlockHeaders

  datatype Status = Seen | Mined | Failed

  datatype Row = Row(status: Status, blockHeight: Option<int>, spvVerified: bool, provenRoot: string)

  /** A block list whose tree was checked against `merkleRoot` when it was stored. */
  datatype CachedTree = CachedTree(txids: seq<string>, merkleRoot: string)

  datatype Spv = Spv(
    headers: map<int, Header>, memo: map<int, Header>,
    rows: map<string, Row>, trees: map<int, CachedTree>)

  const EMPTY := Spv(map[], map[], map[], map[])

  // ---------- what must stay true ----------

  /** The property the pipeline promises about one row. */
  ghost predicate Proved(h: Hash, s: Spv, txid: string) {
    txid in s.rows && s.rows[txid].spvVerified ==>
      var r := s.rows[txid];
      && r.status == Mined
      && r.blockHeight.Some? && r.blockHeight.value in s.headers
      && Included(h, txid, Lower(s.headers[r.blockHeight.value].merkleRoot))
  }

  ghost predicate RowSound(h: Hash, headers: map<int, Header>, txid: string, r: Row) {
    r.spvVerified ==>
      && r.status == Mined
      && r.blockHeight.Some? && r.blockHeight.value in headers
      && r.provenRoot == Lower(headers[r.blockHeight.value].merkleRoot)
      && Included(h, txid, r.provenRoot)
  }

  ghost predicate RowsSound(h: Hash, s: Spv) {
    forall t :: t in s.rows ==> RowSound(h, s.headers, t, s.rows[t])
  }

  ghost predicate MemoSound(s: Spv) {
    forall k :: k in s.memo ==> k in s.headers && s.headers[k] == s.memo[k]
  }

  ghost predicate TreeSound(h: Hash, c: CachedTree) {
    ValidList(c.txids) && c.merkleRoot == RootText(h, c.txids)
  }

  ghost predicate TreesSound(h: Hash, s: Spv) {
    forall k :: k in s.trees ==> TreeSound(h, s.trees[k])
  }

  ghost predicate Inv(h: Hash, s: Spv) { MemoSound(s) && TreesSound(h, s) && RowsSound(h, s) }

  lemma InvProves(h: Hash, s: Spv, txid: string)
    requires Inv(h, s)
    ensures Proved(h, s, txid)
  {
  }

  // ---------- header store ----------

  function Store(s: Spv, hd: Header): Spv {
    s.(headers := s.headers[hd.height := hd], memo := s.memo[hd.height := hd])
  }

  /** The insert is refused when a text does not fit its column or its hash is held at another height. */
  predicate Insertable(headers: map<int, Header>, hd: Header) {
    FitsColumns(hd) && forall k :: k in headers && headers[k].hash == hd.hash ==> k == hd.height
  }

  /** A fetched header is used only if its proof of work holds. */
  function Accepted(h: Hash, reply: Option<Header>): Option<Header> {
    if reply.Some? && VerifyProofOfWork(h, reply.value) then reply else None
  }

  /** A header, none, or the error of a refused insert. */
  datatype Lookup = Held(header: Header) | NotHeld | Thrown

  /** Memo, then table, then the provider; a fetched header is stored under the height it claims. */
  function GetHeader(h: Hash, s: Spv, height: int, reply: Option<Header>): (Spv, Lookup) {
    if height in s.memo then (s, Held(s.memo[height]))
    else if height in s.headers then
      (s.(memo := s.memo[height := s.headers[height]]), Held(s.headers[height]))
    else if Accepted(h, reply).None? then (s, NotHeld)
    else if !Insertable(s.headers, reply.value) then (s, Thrown)
    else (Store(s, reply.value), Held(reply.value))
  }

  /** The verdicts recorded at one height. */
  predicate VerdictAt(r: Row, height: int) { r.spvVerified && r.blockHeight == Some(height) }

  function Withdrawn(r: Row, height: int): Row {
    if VerdictAt(r, height) then r.(spvVerified := false, status := Seen) else r
  }

  /** A differing hash at a held height: drop the header and withdraw the verdicts made against it. */
  function DetectReorg(s: Spv, hd: Header): Spv {
    if hd.height !in s.headers || s.headers[hd.height].hash == hd.hash then s
    else s.(
      headers := s.headers - {hd.height},
      memo := s.memo - {hd.height},
      rows := map t | t in s.rows :: Withdrawn(s.rows[t], hd.height))
  }

  /** One header of a sync; the reorg's writes stay even when the insert after them is refused. */
  function SyncOne(h: Hash, s: Spv, hd: Header): Spv {
    var s1 := DetectReorg(s, hd);
    if !VerifyProofOfWork(h, hd) then s else if Insertable(s1.headers, hd) then Store(s1, hd) else s1
  }

  /** Headers that fail their proof of work are passed over; a refused insert ends the sync. */
  function SyncTip(h: Hash, s: Spv, served: seq<Header>): Spv
    decreases |served|
  {
    if served == [] then s
    else if Refused(h, s, served[0]) then SyncOne(h, s, served[0])
    else SyncTip(h, SyncOne(h, s, served[0]), served[1..])
  }

  predicate Refused(h: Hash, s: Spv, hd: Header) {
    VerifyProofOfWork(h, hd) && !Insertable(DetectReorg(s, hd).headers, hd)
  }

  // ---------- verdicts ----------

  ghost predicate SameTables(a: Spv, b: Spv) { a.headers == b.headers && a.memo == b.memo && a.trees == b.trees }

  function Confirmed(height: int, root: string): Row { Row(Mined, Some(height), true, root) }

  function RecordVerified(s: Spv, txid: string, height: int, root: string): (r: Spv)
    ensures SameTables(r, s)
  {
    if txid in s.rows then s.(rows := s.rows[txid := Confirmed(height, root)]) else s
  }

  /** Keeps a proof without claiming it is sound; the height moves only when one is known. */
  function RecordUnverified(s: Spv, txid: string, height: Option<int>): (r: Spv)
    ensures SameTables(r, s)
  {
    if txid in s.rows then
      var r := s.rows[txid];
      s.(rows := s.rows[txid :=
        r.(spvVerified := false, blockHeight := if height.Some? then height else r.blockHeight)])
    else s
  }

  /** A row is told which block it is said to be in, whatever it has become since it was read. */
  function StampHeight(s: Spv, txid: string, height: int): (r: Spv)
    ensures SameTables(r, s)
  {
    if txid in s.rows then s.(rows := s.rows[txid := s.rows[txid].(blockHeight := Some(height))]) else s
  }

  /** A height reported by the upstream, kept only where none is known and the row is not mined. */
  function ReportHeight(s: Spv, txid: string, height: int): (r: Spv)
    ensures SameTables(r, s)
  {
    if txid in s.rows && s.rows[txid].status != Mined && s.rows[txid].blockHeight.None?
    then StampHeight(s, txid, height)
    else s
  }

  /** A terminal rejection; a mined row is left alone. */
  function Reject(s: Spv, txid: string): (r: Spv)
    ensures SameTables(r, s)
  {
    if txid in s.rows && s.rows[txid].status != Mined then GiveUp(s, txid) else s
  }

  /** A row a day old that no source has seen is given up, whatever it has become since it was read. */
  function GiveUp(s: Spv, txid: string): (r: Spv)
    ensures SameTables(r, s)
  {
    if txid in s.rows then s.(rows := s.rows[txid := s.rows[txid].(status := Failed)]) else s
  }

  /** A decoded BUMP: `computeRoot` is the SDK's walk, here by its contract, throwing as None. */
  datatype Bump = Bump(height: int, index: int, nodes: seq<string>)

  function VerifyBump(h: Hash, s: Spv, txid: string, bump: Option<Bump>, claimed: Option<int>,
                      reply: Option<Header>): Spv
  {
    if bump.None? then RecordUnverified(s, txid, claimed)
    else
      var b := bump.value;
      var root := TscRoot(h, txid, b.index, b.nodes);
      if root.None? then RecordUnverified(s, txid, claimed)
      else
        var (s1, lookup) := GetHeader(h, s, b.height, reply);
        if lookup.Thrown? then RecordUnverified(s1, txid, claimed)
        else JudgeBump(s1, txid, b.height, root.value, lookup)
  }

  predicate RootHits(root: string, lookup: Lookup) {
    lookup.Held? && Lower(lookup.header.merkleRoot) == Lower(root)
  }

  function JudgeBump(s: Spv, txid: string, height: int, root: string, lookup: Lookup): (r: Spv)
    ensures SameTables(r, s)
  {
    if RootHits(root, lookup) then RecordVerified(s, txid, height, Lower(root))
    else RecordUnverified(s, txid, Some(height))
  }

  datatype TscProof = TscProof(index: int, target: string, targetType: string, nodes: seq<string>)

  /** The display text with its byte pairs in reverse order. */
  function WireOrder(hex: string): string {
    if |hex| < 2 then "" else WireOrder(hex[2..]) + hex[..2]
  }

  function TargetMatches(p: TscProof, hd: Header): bool {
    var target, kind := Lower(p.target), Lower(p.targetType);
    if target == "" then false
    else if kind == "merkleroot" then target == Lower(hd.merkleRoot)
    else if kind == "header" then |target| == 160 && target[72..136] == WireOrder(Lower(hd.merkleRoot))
    else target == Lower(hd.hash)
  }

  predicate ProofHits(h: Hash, txid: string, p: TscProof, lookup: Lookup) {
    && lookup.Held? && TargetMatches(p, lookup.header)
    && TscRoot(h, txid, p.index, p.nodes) == Some(Lower(lookup.header.merkleRoot))
  }

  /**
   A row read as pending, at a height the status service reported: prove it, or keep the height.
   Neither write looks at the row again; an error on the way writes nothing.
   */
  function VerifyTsc(h: Hash, s: Spv, txid: string, height: int, proof: Option<TscProof>,
                     reply: Option<Header>): Spv
  {
    if proof.None? then StampHeight(s, txid, height)
    else
      var (s1, lookup) := GetHeader(h, s, height, reply);
      if lookup.Thrown? then s1
      else if ProofHits(h, txid, proof.value, lookup)
      then RecordVerified(s1, txid, height, Lower(lookup.header.merkleRoot))
      else StampHeight(s1, txid, height)
  }

  // ---------- block drain ----------

  /** A tree for the height, checked against the held header; downloads it if it is not cached. */
  function EnsureTree(h: Hash, s: Spv, height: int, list: Option<seq<string>>, reply: Option<Header>)
    : (Spv, Option<CachedTree>)
  {
    var (s1, lookup) := GetHeader(h, s, height, reply);
    if !lookup.Held? then (s1, None) else TreeFor(h, s1, height, list, Lower(lookup.header.merkleRoot))
  }

  function TreeFor(h: Hash, s: Spv, height: int, list: Option<seq<string>>, expected: string)
    : (Spv, Option<CachedTree>)
  {
    if height in s.trees then
      if s.trees[height].merkleRoot == expected then (s, Some(s.trees[height]))
      else (s.(trees := s.trees - {height}), None)
    else if list.None? || !Buildable(list.value) || RootText(h, list.value) != expected then (s, None)
    else
      var c := CachedTree(list.value, expected);
      (s.(trees := s.trees[height := c]), Some(c))
  }

  /** `buildBlockMerkleTree` answers null exactly when this is false. */
  predicate Buildable(txids: seq<string>)
    ensures Buildable(txids) <==> ValidList(txids)
  {
    txids != [] && forall i :: 0 <= i < |txids| ==> IsHashText(Clean(txids[i]))
  }

  function InBlock(c: CachedTree): set<string> { set t | t in CleanAll(c.txids) }

  /** One row after its block has been compared with the backlog. */
  function DrainRow(t: string, r: Row, height: int, c: CachedTree, done: set<string>): Row {
    if r.status == Seen && t in InBlock(c) && t !in done then Confirmed(height, c.merkleRoot)
    else if r.status == Seen && r.blockHeight == Some(height) then r.(blockHeight := None)
    else r
  }

  function DrainRows(rows: map<string, Row>, height: int, c: CachedTree, done: set<string>): map<string, Row> {
    map t | t in rows :: DrainRow(t, rows[t], height, c, done)
  }

  function DrainHeight(h: Hash, s: Spv, height: int, done: set<string>,
                       list: Option<seq<string>>, reply: Option<Header>): Spv
  {
    var (s1, tree) := EnsureTree(h, s, height, list, reply);
    if tree.None? then s1 else s1.(rows := DrainRows(s1.rows, height, tree.value, done))
  }

  /**
   One row of a status batch checked against a tree. With an assembled BUMP the update is
   limited to pending rows; without one it is not. A pending row the block lacks loses its height.
   */
  function BatchRow(t: string, r: Row, height: int, c: CachedTree, bumpBuilt: bool): Row {
    if Lower(t) in InBlock(c) then
      if bumpBuilt && r.status != Seen then r else Confirmed(height, c.merkleRoot)
    else if r.status == Seen then r.(blockHeight := None)
    else r
  }

  function BatchRows(rows: map<string, Row>, batch: set<string>, height: int, c: CachedTree, bumpBuilt: set<string>)
    : map<string, Row>
  {
    map t | t in rows :: if t in batch then BatchRow(t, rows[t], height, c, t in bumpBuilt) else rows[t]
  }

  function VerifyOneBlock(h: Hash, s: Spv, height: int, batch: set<string>, bumpBuilt: set<string>,
                          list: Option<seq<string>>, reply: Option<Header>): Spv
  {
    if batch == {} then s
    else
      var (s1, tree) := EnsureTree(h, s, height, list, reply);
      if tree.None? then s1
      else s1.(rows := BatchRows(s1.rows, batch, height, tree.value, bumpBuilt))
  }

  // ---------- runs ----------

  datatype Event =
    | Broadcast(txid: string)
    | HeaderSync(header: Header)
    | BumpArrives(txid: string, bump: Option<Bump>, claimed: Option<int>, reply: Option<Header>)
    | TscPoll(txid: string, height: int, proof: Option<TscProof>, reply: Option<Header>)
    | Drain(height: int, done: set<string>, list: Option<seq<string>>, reply: Option<Header>)
    | Batch(height: int, batch: set<string>, bumpBuilt: set<string>,
            list: Option<seq<string>>, reply: Option<Header>)
    | Reported(txid: string, height: int)
    | Rejected(txid: string)
    | GivenUp(txid: string)
    | DropTrees(heights: set<int>)
    | Restart

  function Step(h: Hash, s: Spv, e: Event): Spv {
    match e
    case Broadcast(txid) =>
      if txid in s.rows then s else s.(rows := s.rows[txid := Row(Seen, None, false, "")])
    case HeaderSync(header) => SyncOne(h, s, header)
    case BumpArrives(txid, bump, claimed, reply) => VerifyBump(h, s, txid, bump, claimed, reply)
    case TscPoll(txid, height, proof, reply) => VerifyTsc(h, s, txid, height, proof, reply)
    case Drain(height, done, list, reply) => DrainHeight(h, s, height, done, list, reply)
    case Batch(height, batch, bumpBuilt, list, reply) =>
      VerifyOneBlock(h, s, height, batch, bumpBuilt, list, reply)
    case Reported(txid, height) => ReportHeight(s, txid, height)
    case Rejected(txid) => Reject(s, txid)
    case GivenUp(txid) => GiveUp(s, txid)
    case DropTrees(heights) => s.(trees := s.trees - heights)
    case Restart => s.(memo := map[], trees := map[])
  }

  function Run(h: Hash, events: seq<Event>): Spv
    decreases |events|
  {
    if events == [] then EMPTY
    else Step(h, Run(h, events[..|events| - 1]), events[|events| - 1])
  }

  /** The height a handler asks the provider for, where it may ask. */
  function Asked(e: Event): int {
    match e
    case BumpArrives(_, bump, _, _) => if bump.Some? then bump.value.height else 0
    case TscPoll(_, height, _, _) => height
    case Drain(height, _, _, _) => height
    case Batch(height, _, _, _, _) => height
    case _ => 0
  }

  function Reply(e: Event): Option<Header> {
    if e.BumpArrives? || e.TscPoll? || e.Drain? || e.Batch? then e.reply else None
  }

  function ServedBy(e: Event): set<Header> {
    if e.HeaderSync? then {e.header}
    else if Reply(e).Some? then {Reply(e).value} else {}
  }

  /** What the provider must get right: the height it was asked for, and well-formed hashes. */
  predicate WellServed(e: Event) {
    && (forall hd :: hd in ServedBy(e) ==> Canonical(hd))
    && (Reply(e).Some? ==> Reply(e).value.height == Asked(e))
  }

  predicate Verified(s: Spv, txid: string) { txid in s.rows && s.rows[txid].spvVerified }

  /** The state in which a poll stamps a reported height, if that is what it ends with. */
  function Stamping(h: Hash, s: Spv, e: Event): Option<Spv>
    requires e.TscPoll?
  {
    if e.proof.None? then Some(s)
    else
      var (s1, lookup) := GetHeader(h, s, e.height, e.reply);
      if lookup.Thrown? || ProofHits(h, e.txid, e.proof.value, lookup) then None else Some(s1)
  }

  /** The stamp leaves no verdict standing against a root it was not made against. */
  predicate StampFits(s: Spv, txid: string, height: int) {
    Verified(s, txid) ==> height in s.headers && Lower(s.headers[height].merkleRoot) == s.rows[txid].provenRoot
  }

  /** The two writes that look at nothing find the row as it was read, or agree with its verdict. */
  predicate BlindWriteFits(h: Hash, s: Spv, e: Event) {
    && (e.GivenUp? ==> !Verified(s, e.txid))
    && (e.TscPoll? && Stamping(h, s, e).Some? ==> StampFits(Stamping(h, s, e).value, e.txid, e.height))
  }

  ghost predicate BlindWritesFit(h: Hash, events: seq<Event>) {
    forall k :: 0 <= k < |events| ==> BlindWriteFits(h, Run(h, events[..k]), events[k])
  }

  function Served(events: seq<Event>): set<Header> {
    if events == [] then {} else Served(events[..|events| - 1]) + ServedBy(events[|events| - 1])
  }

  ghost predicate CollisionAmong(h: Hash, headers: set<Header>) {
    exists f, g :: f in headers && g in headers && HeaderCollision(h, f, g)
  }

  /** Everything held came from the provider, passed its proof of work and sits at its own height. */
  ghost predicate HeldFrom(h: Hash, s: Spv, served: set<Header>) {
    forall k :: k in s.headers ==>
      var hd := s.headers[k];
      hd.height == k && hd in served && Canonical(hd) && VerifyProofOfWork(h, hd)
  }

  ghost predicate Good(h: Hash, s: Spv, served: set<Header>) { Inv(h, s) && HeldFrom(h, s, served) }

  // ---------- what is read off one handler ----------

  /** The handler fetches a header and stores it. */
  predicate Fetches(h: Hash, s: Spv, height: int, reply: Option<Header>) {
    height !in s.headers && Accepted(h, reply).Some? && Insertable(s.headers, reply.value)
  }

  function Fetched(h: Hash, s: Spv, height: int, reply: Option<Header>): Option<Header> {
    if Fetches(h, s, height, reply) then reply else None
  }

  function HeadersWith(s: Spv, fetched: Option<Header>): map<int, Header> {
    if fetched.Some? then s.headers[fetched.value.height := fetched.value] else s.headers
  }

  /** The header a handler works with, where it has one. */
  function Working(s: Spv, height: int, fetched: Option<Header>): Option<Header> {
    if fetched.Some? then fetched else if height in s.headers then Some(s.headers[height]) else None
  }

  /** The state after a header was read for one height, and perhaps a tree. */
  ghost predicate HasRead(h: Hash, s: Spv, s1: Spv, height: int, fetched: Option<Header>) {
    && s1.rows == s.rows && MemoSound(s1) && TreesSound(h, s1)
    && s1.headers == HeadersWith(s, fetched) && (fetched.Some? ==> height !in s.headers)
  }

  lemma HeaderRead(h: Hash, s: Spv, height: int, reply: Option<Header>)
    requires MemoSound(s) && TreesSound(h, s)
    ensures var (s1, lookup) := GetHeader(h, s, height, reply);
      var working := Working(s, height, Fetched(h, s, height, reply));
      && HasRead(h, s, s1, height, Fetched(h, s, height, reply)) && s1.trees == s.trees
      && (lookup.Held? <==> working.Some?) && (lookup.Held? ==> lookup.header == working.value)
      && (lookup.Thrown? ==> s1 == s)
  {
    if height in s.memo {
    } else if height in s.headers {
    } else if Accepted(h, reply).Some? && Insertable(s.headers, reply.value) {
      assert MemoSound(Store(s, reply.value));
    }
  }

  lemma TreeForSound(h: Hash, s: Spv, height: int, list: Option<seq<string>>, expected: string)
    requires TreesSound(h, s)
    ensures var (s1, tree) := TreeFor(h, s, height, list, expected);
      && s1 == s.(trees := s1.trees) && TreesSound(h, s1)
      && (tree.Some? ==> TreeSound(h, tree.value) && tree.value.merkleRoot == expected)
  {
    var (s1, tree) := TreeFor(h, s, height, list, expected);
    forall k | k in s1.trees ensures TreeSound(h, s1.trees[k]) {
      if s1.trees != s.trees && k in s.trees { assert TreeSound(h, s.trees[k]); }
    }
  }

  lemma TreeRead(h: Hash, s: Spv, height: int, list: Option<seq<string>>, reply: Option<Header>)
    requires MemoSound(s) && TreesSound(h, s)
    ensures var (s1, tree) := EnsureTree(h, s, height, list, reply);
      var working := Working(s, height, Fetched(h, s, height, reply));
      && HasRead(h, s, s1, height, Fetched(h, s, height, reply))
      && (tree.Some? ==> TreeSound(h, tree.value) && working.Some?
                         && tree.value.merkleRoot == Lower(working.value.merkleRoot))
  {
    HeaderRead(h, s, height, reply);
    var (s0, lookup) := GetHeader(h, s, height, reply);
    if lookup.Held? { TreeForSound(h, s0, height, list, Lower(lookup.header.merkleRoot)); }
  }

  /** A reorg withdraws exactly the verdicts made against the header it replaces. */
  lemma ReorgWithdrawsExactly(h: Hash, s: Spv, hd: Header)
    requires Inv(h, s) && hd.height in s.headers && s.headers[hd.height].hash != hd.hash
    ensures var s' := DetectReorg(s, hd);
      && s'.rows.Keys == s.rows.Keys
      && s'.headers == s.headers - {hd.height}
      && forall t :: t in s.rows ==>
           if s.rows[t].spvVerified && s.rows[t].blockHeight == Some(hd.height)
           then !s'.rows[t].spvVerified && s'.rows[t].status == Seen
                && s.rows[t].provenRoot == Lower(s.headers[hd.height].merkleRoot)
           else s'.rows[t] == s.rows[t]
  {
    forall t | t in s.rows ensures RowSound(h, s.headers, t, s.rows[t]) {}
  }

  /** What a handler may do before it writes to rows. */
  function AfterReads(h: Hash, s: Spv, e: Event): Spv {
    match e
    case HeaderSync(header) => SyncOne(h, s, header)
    case BumpArrives(_, bump, _, reply) => if bump.None? then s else GetHeader(h, s, bump.value.height, reply).0
    case TscPoll(_, height, _, reply) => GetHeader(h, s, height, reply).0
    case Drain(height, _, list, reply) => EnsureTree(h, s, height, list, reply).0
    case Batch(height, _, _, list, reply) => EnsureTree(h, s, height, list, reply).0
    case DropTrees(_) => Step(h, s, e)
    case Restart => Step(h, s, e)
    case _ => s
  }

  lemma StepReads(h: Hash, s: Spv, e: Event)
    ensures SameTables(Step(h, s, e), s) || SameTables(Step(h, s, e), AfterReads(h, s, e))
  {
    match e
    case BumpArrives(txid, bump, claimed, reply) => BumpReads(h, s, txid, bump, claimed, reply);
    case TscPoll(txid, height, proof, reply) => TscReads(h, s, txid, height, proof, reply);
    case _ =>
  }

  lemma BumpReads(h: Hash, s: Spv, txid: string, bump: Option<Bump>, claimed: Option<int>, reply: Option<Header>)
    ensures var s' := VerifyBump(h, s, txid, bump, claimed, reply);
      SameTables(s', s) || (bump.Some? && SameTables(s', GetHeader(h, s, bump.value.height, reply).0))
  {
  }

  lemma TscReads(h: Hash, s: Spv, txid: string, height: int, proof: Option<TscProof>, reply: Option<Header>)
    ensures var s' := VerifyTsc(h, s, txid, height, proof, reply);
      SameTables(s', s) || SameTables(s', GetHeader(h, s, height, reply).0)
  {
  }

  /** The tables beside the rows are sound whatever happens. */
  lemma StepKeepsTables(h: Hash, s: Spv, e: Event)
    requires MemoSound(s) && TreesSound(h, s)
    ensures MemoSound(Step(h, s, e)) && TreesSound(h, Step(h, s, e))
  {
    StepReads(h, s, e);
    ReadsKeepTables(h, s, e);
  }

  lemma ReadsKeepTables(h: Hash, s: Spv, e: Event)
    requires MemoSound(s) && TreesSound(h, s)
    ensures MemoSound(AfterReads(h, s, e)) && TreesSound(h, AfterReads(h, s, e))
    ensures HeldOrServed(h, s, AfterReads(h, s, e), ServedBy(e))
  {
    match e
    case BumpArrives(txid, bump, claimed, reply) => if bump.Some? { HeaderRead(h, s, bump.value.height, reply); }
    case TscPoll(txid, height, proof, reply) => HeaderRead(h, s, height, reply);
    case Drain(height, done, list, reply) => TreeRead(h, s, height, list, reply);
    case Batch(height, batch, bumpBuilt, list, reply) => TreeRead(h, s, height, list, reply);
    case HeaderSync(header) => SyncKeepsTables(h, s, header);
    case _ =>
  }

  ghost predicate HeldOrServed(h: Hash, s: Spv, s': Spv, served: set<Header>) {
    forall k :: k in s'.headers ==>
      (k in s.headers && s'.headers[k] == s.headers[k])
      || (s'.headers[k] in served && VerifyProofOfWork(h, s'.headers[k]) && s'.headers[k].height == k)
  }

  lemma SyncKeepsTables(h: Hash, s: Spv, hd: Header)
    requires MemoSound(s) && TreesSound(h, s)
    ensures MemoSound(SyncOne(h, s, hd)) && TreesSound(h, SyncOne(h, s, hd))
    ensures HeldOrServed(h, s, SyncOne(h, s, hd), {hd})
  {
    var s1 := DetectReorg(s, hd);
    assert MemoSound(s1) && s1.trees == s.trees;
  }

  /** A walked root is text of real bytes or of the txid itself; matching a held root, it is included. */
  lemma WalkIncludes(h: Hash, txid: string, index: int, nodes: seq<string>, root: string)
    requires TscRoot(h, txid, index, nodes) == Some(root)
    ensures Included(h, txid, root)
  {
    var i: nat := index;
    assert TscRoot(h, txid, i, nodes) == Some(root);
  }

  lemma {:induction false} TextIsLower(bs: Bytes)
    ensures AllBytes(bs) ==> Lower(Text(bs)) == Text(bs)
  {
    if AllBytes(bs) {
      TextRoundTrip(bs);
      LowerKeepsHex(Text(bs));
    }
  }

  lemma LowerLower(s: string)
    ensures Lower(Lower(s)) == Lower(s)
  {
    LowerChars(s);
    LowerChars(Lower(s));
  }

  /** A root text equal to a canonical root, up to case, is that root. */
  lemma LowerRootSame(h: Hash, txid: string, index: int, nodes: seq<string>, root: string)
    requires TscRoot(h, txid, index, nodes).Some? && IsHashText(root)
    requires Lower(TscRoot(h, txid, index, nodes).value) == Lower(root)
    ensures TscRoot(h, txid, index, nodes) == Some(root)
  {
    var w := Walk(h, LeBytes(Lower(txid)), index, nodes).value;
    HashTextIsDigest(root);
    LowerTextBytes(w, LeBytes(root));
  }

  lemma LowerTextBytes(w: Bytes, r: Bytes)
    requires AllBytes(r) && Lower(Text(w)) == Text(r)
    ensures w == r
  {
    TextRoundTrip(r);
    LowerChars(Text(w));
    forall i | 0 <= i < |Text(w)| ensures IsLowerHexDigit(LowerChar(Text(w)[i])) {
      assert Lower(Text(w))[i] == Text(r)[i];
    }
    NanIsUpper(w);
    TextIsLower(w);
    TextInjective(w, r);
  }

  /** A malformed byte leaves a character in the text that is no hexadecimal digit in any case. */
  lemma {:induction false} NanIsUpper(w: Bytes)
    ensures !AllBytes(w) ==> exists i :: 0 <= i < |Text(w)| && !IsLowerHexDigit(LowerChar(Text(w)[i]))
  {
    if !AllBytes(w) {
      var n := |Text(w[1..])|;
      assert Text(w) == Text(w[1..]) + ByteText(w[0]);
      if !IsByte(w[0]) {
        assert !IsLowerHexDigit(LowerChar(Text(w)[n]));
      } else {
        assert !AllBytes(w[1..]);
        NanIsUpper(w[1..]);
        var i :| 0 <= i < n && !IsLowerHexDigit(LowerChar(Text(w[1..])[i]));
        assert Text(w)[i] == Text(w[1..])[i];
      }
    }
  }

  /** Membership in a sound tree is inclusion in its root, whatever the case of the row's text. */
  lemma TreeIncludes(h: Hash, c: CachedTree, txid: string)
    requires TreeSound(h, c) && Lower(txid) in InBlock(c)
    ensures Included(h, txid, c.merkleRoot)
  {
    var list := CleanAll(c.txids);
    var i :| 0 <= i < |list| && list[i] == Lower(txid);
    BranchProvesInclusion(h, c.txids, i);
    LowerLower(txid);
    assert TscRoot(h, txid, i, Branch(h, Leaves(c.txids), i)) == Some(c.merkleRoot);
  }

  lemma BlockTextIsLower(c: CachedTree, t: string)
    requires ValidList(c.txids) && t in InBlock(c)
    ensures Lower(t) == t
  {
    var i :| 0 <= i < |c.txids| && CleanAll(c.txids)[i] == t;
    HashTextIsDigest(t);
  }

  // ---------- exactly when one event keeps every verdict standing ----------

  ghost predicate HasVerdicts(s: Spv, height: int) {
    exists t :: t in s.rows && VerdictAt(s.rows[t], height)
  }

  /** Storing the header puts no other root under a verdict, some rows aside. */
  ghost predicate Harmless(s: Spv, hd: Header, except: set<string>) {
    (exists t :: t in s.rows && t !in except && VerdictAt(s.rows[t], hd.height)) ==>
      hd.height in s.headers && Lower(s.headers[hd.height].merkleRoot) == Lower(hd.merkleRoot)
  }

  lemma UnheldHasNoVerdicts(h: Hash, s: Spv, height: int)
    requires Inv(h, s) && height !in s.headers
    ensures !HasVerdicts(s, height)
  {
    forall t | t in s.rows ensures !VerdictAt(s.rows[t], height) {
      assert RowSound(h, s.headers, t, s.rows[t]);
    }
  }

  ghost predicate OthersSound(h: Hash, s: Spv, headers: map<int, Header>, except: set<string>) {
    forall t :: t in s.rows && t !in except ==> RowSound(h, headers, t, s.rows[t])
  }

  /** The rows a stored header leaves sound. */
  lemma OthersExact(h: Hash, s: Spv, hd: Header, except: set<string>)
    requires Inv(h, s)
    ensures OthersSound(h, s, s.headers[hd.height := hd], except) <==> Harmless(s, hd, except)
  {
    var headers := s.headers[hd.height := hd];
    forall t | t in s.rows
      ensures RowSound(h, headers, t, s.rows[t]) <==>
        (VerdictAt(s.rows[t], hd.height) ==>
           hd.height in s.headers && Lower(s.headers[hd.height].merkleRoot) == Lower(hd.merkleRoot))
    {
      assert RowSound(h, s.headers, t, s.rows[t]);
    }
  }

  lemma StoreExact(h: Hash, s: Spv, hd: Header)
    requires Inv(h, s)
    ensures Inv(h, Store(s, hd)) <==> Harmless(s, hd, {})
  {
    OthersExact(h, s, hd, {});
    var s' := Store(s, hd);
    assert RowsSound(h, s') <==> OthersSound(h, s, s.headers[hd.height := hd], {});
  }

  /**
   A header fetched for one height is stored under the height it claims, without the reorg
   test. The state stays sound exactly when that does not put a different root under verdicts.
   */
  lemma FetchedHeaderExact(h: Hash, s: Spv, height: int, hd: Header)
    requires Inv(h, s) && Fetches(h, s, height, Some(hd))
    ensures GetHeader(h, s, height, Some(hd)) == (Store(s, hd), Held(hd))
    ensures Inv(h, Store(s, hd)) <==>
      (hd.height == height || !HasVerdicts(s, hd.height)
       || Lower(s.headers[hd.height].merkleRoot) == Lower(hd.merkleRoot))
  {
    assert height !in s.memo;
    StoreExact(h, s, hd);
    UnheldHasNoVerdicts(h, s, height);
    if hd.height !in s.headers { UnheldHasNoVerdicts(h, s, hd.height); }
  }

  /** A header with the held hash is merged without the reorg test: sound exactly when its root agrees. */
  predicate SyncFits(h: Hash, s: Spv, hd: Header) {
    VerifyProofOfWork(h, hd) && hd.height in s.headers && s.headers[hd.height].hash == hd.hash
    && Insertable(s.headers, hd) && (exists t :: t in s.rows && VerdictAt(s.rows[t], hd.height)) ==>
      Lower(s.headers[hd.height].merkleRoot) == Lower(hd.merkleRoot)
  }

  lemma SyncedHeaderExact(h: Hash, s: Spv, hd: Header)
    requires Inv(h, s)
    ensures Inv(h, SyncOne(h, s, hd)) <==> SyncFits(h, s, hd)
  {
    var s1 := DetectReorg(s, hd);
    if hd.height !in s.headers {
      UnheldHasNoVerdicts(h, s, hd.height);
      StoreExact(h, s, hd);
    } else if s.headers[hd.height].hash == hd.hash {
      StoreExact(h, s, hd);
    } else {
      forall t | t in s1.rows ensures RowSound(h, s1.headers, t, s1.rows[t]) {
        assert RowSound(h, s.headers, t, s.rows[t]);
      }
      UnheldHasNoVerdicts(h, s1, hd.height);
      StoreExact(h, s1, hd);
    }
  }

  /**
   What a handler wrote at the height it asked for: verdicts against the header it worked with for
   the rows `given`, no verdict for the rows `cleared`, and no other verdict changed.
   */
  ghost predicate Recorded(h: Hash, s: Spv, s': Spv, height: int, root: string, given: set<string>,
                           cleared: set<string>)
  {
    && MemoSound(s') && TreesSound(h, s') && s'.rows.Keys == s.rows.Keys && given <= s.rows.Keys
    && (forall t :: t in given ==> s'.rows[t] == Confirmed(height, root) && Included(h, t, root))
    && (forall t :: t in s.rows && t !in given ==>
          if t in cleared then !s'.rows[t].spvVerified
          else s'.rows[t] == s.rows[t] || (!s'.rows[t].spvVerified && !s.rows[t].spvVerified))
  }

  predicate OfHeight(fetched: Option<Header>, height: int) { fetched.Some? ==> fetched.value.height == height }

  /** The header fetched, if any, is of the height asked; or no verdict was given and none hurt. */
  ghost predicate FetchFits(s: Spv, height: int, fetched: Option<Header>, given: set<string>, cleared: set<string>) {
    OfHeight(fetched, height) || (given == {} && Harmless(s, fetched.value, cleared))
  }

  /**
   One rule for every handler that reads a header and records verdicts at the height it asked for:
   every verdict stands afterwards if and only if a header fetched on the way is of that height, or no
   verdict is recorded and the header puts no other root under one; and each new verdict is proved
   exactly in the first case.
   */
  lemma RecordExact(h: Hash, s: Spv, s': Spv, height: int, fetched: Option<Header>, root: string,
                    given: set<string>, cleared: set<string>)
    requires Inv(h, s) && s'.headers == HeadersWith(s, fetched) && (fetched.Some? ==> height !in s.headers)
    requires given != {} ==>
      Working(s, height, fetched).Some? && root == Lower(Working(s, height, fetched).value.merkleRoot)
    requires Recorded(h, s, s', height, root, given, cleared)
    ensures Inv(h, s') <==> FetchFits(s, height, fetched, given, cleared)
    ensures forall t :: t in given ==> (Proved(h, s', t) <==> OfHeight(fetched, height))
  {
    var except := given + cleared;
    if fetched.Some? {
      OthersExact(h, s, fetched.value, except);
      UnheldHasNoVerdicts(h, s, height);
    }
    assert OthersSound(h, s, s'.headers, except) <==>
      forall t :: t in s.rows && t !in except ==> RowSound(h, s'.headers, t, s'.rows[t]);
    assert fetched.None? ==> OthersSound(h, s, s.headers, except);
    assert given == {} ==> except == cleared;
    if given != {} {
      var t :| t in given;
      assert RowSound(h, s'.headers, t, s'.rows[t]) <==> OfHeight(fetched, height);
    }
  }

  // ---------- the handlers, one by one ----------

  /** A computed root in lower case is text of real bytes; a root spelled with NaN is in no lower-case text. */
  lemma IncludedInLower(h: Hash, txid: string, index: int, nodes: seq<string>)
    requires TscRoot(h, txid, index, nodes).Some?
    ensures var root := TscRoot(h, txid, index, nodes).value;
      Included(h, txid, Lower(root)) <==> Lower(root) == root
  {
    var root := TscRoot(h, txid, index, nodes).value;
    if Lower(root) == root {
      WalkIncludes(h, txid, index, nodes, root);
    } else {
      LowerChars(root);
      TextCharacters(Walk(h, LeBytes(Lower(txid)), index, nodes).value);
      var k :| 0 <= k < |root| && LowerChar(root[k]) != root[k];
      NotComputed(h, txid, Lower(root), k);
    }
  }

  /** No branch computes a text with a character outside digits, minus sign and the letters of NaN. */
  lemma NotComputed(h: Hash, txid: string, root: string, k: nat)
    requires k < |root| && (root[k] == 'n' || root[k] == '+')
    ensures !Included(h, txid, root)
  {
    forall i: nat, nodes ensures TscRoot(h, txid, i, nodes) != Some(root) {
      if TscRoot(h, txid, i, nodes).Some? { TextCharacters(Walk(h, LeBytes(Lower(txid)), i, nodes).value); }
    }
  }

  /** The computed root is the header's, and in lower case. */
  predicate BumpHits(h: Hash, s: Spv, txid: string, bump: Option<Bump>, reply: Option<Header>) {
    && txid in s.rows && bump.Some? && TscRoot(h, txid, bump.value.index, bump.value.nodes).Some?
    && var root := TscRoot(h, txid, bump.value.index, bump.value.nodes).value;
      RootHits(root, GetHeader(h, s, bump.value.height, reply).1) && Lower(root) == root
  }

  /** A matching root is in lower case, and a header fetched for it is of the height asked. */
  ghost predicate BumpFits(h: Hash, s: Spv, txid: string, bump: Option<Bump>, reply: Option<Header>) {
    bump.Some? && TscRoot(h, txid, bump.value.index, bump.value.nodes).Some? ==>
      var root := TscRoot(h, txid, bump.value.index, bump.value.nodes).value;
      var lookup := GetHeader(h, s, bump.value.height, reply).1;
      var hits := RootHits(root, lookup) && txid in s.rows;
      && (hits ==> Lower(root) == root)
      && FetchFits(s, bump.value.height, Fetched(h, s, bump.value.height, reply), if hits then {txid} else {}, {txid})
  }

  /** The verdict on a computed root, once the header has been read. */
  lemma JudgeExact(h: Hash, s: Spv, s1: Spv, txid: string, height: int, root: string, lookup: Lookup,
                   fetched: Option<Header>)
    requires Inv(h, s) && HasRead(h, s, s1, height, fetched)
    requires lookup.Held? <==> Working(s, height, fetched).Some?
    requires lookup.Held? ==> lookup.header == Working(s, height, fetched).value
    requires Included(h, txid, Lower(root)) <==> Lower(root) == root
    ensures var hits := RootHits(root, lookup) && txid in s.rows;
      var s' := JudgeBump(s1, txid, height, root, lookup);
      && (Inv(h, s') <==> (hits ==> Lower(root) == root)
                          && FetchFits(s, height, fetched, if hits then {txid} else {}, {txid}))
      && (hits && Lower(root) == root ==> (Proved(h, s', txid) <==> OfHeight(fetched, height)))
  {
    var s' := JudgeBump(s1, txid, height, root, lookup);
    if !RootHits(root, lookup) || txid !in s.rows {
      RecordExact(h, s, s', height, fetched, Lower(root), {}, {txid});
    } else if Lower(root) == root {
      RecordExact(h, s, s', height, fetched, Lower(root), {txid}, {txid});
    } else {
      assert !RowSound(h, s'.headers, txid, s'.rows[txid]);
    }
  }

  lemma UnverifiedStays(h: Hash, s: Spv, txid: string, claimed: Option<int>)
    requires Inv(h, s)
    ensures Inv(h, RecordUnverified(s, txid, claimed))
  {
    RecordExact(h, s, RecordUnverified(s, txid, claimed), 0, None, "", {}, {txid});
  }

  /** And a positive verdict is proved if and only if a header fetched for it is of the claimed height. */
  lemma BumpExact(h: Hash, s: Spv, txid: string, bump: Option<Bump>, claimed: Option<int>, reply: Option<Header>)
    requires Inv(h, s)
    ensures var s' := VerifyBump(h, s, txid, bump, claimed, reply);
      && (Inv(h, s') <==> BumpFits(h, s, txid, bump, reply))
      && (BumpHits(h, s, txid, bump, reply) ==>
            (Proved(h, s', txid) <==> OfHeight(Fetched(h, s, bump.value.height, reply), bump.value.height)))
  {
    UnverifiedStays(h, s, txid, claimed);
    if bump.Some? && TscRoot(h, txid, bump.value.index, bump.value.nodes).Some? {
      var b := bump.value;
      var root := TscRoot(h, txid, b.index, b.nodes).value;
      var (s1, lookup) := GetHeader(h, s, b.height, reply);
      HeaderRead(h, s, b.height, reply);
      IncludedInLower(h, txid, b.index, b.nodes);
      JudgeExact(h, s, s1, txid, b.height, root, lookup, Fetched(h, s, b.height, reply));
    }
  }

  /** As for a BUMP when the proof matches; otherwise the stamp must fit too. */
  ghost predicate TscFits(h: Hash, s: Spv, txid: string, height: int, proof: Option<TscProof>, reply: Option<Header>) {
    if proof.None? then StampFits(s, txid, height)
    else
      var (s1, lookup) := GetHeader(h, s, height, reply);
      var hits := ProofHits(h, txid, proof.value, lookup);
      && FetchFits(s, height, Fetched(h, s, height, reply), if hits && txid in s.rows then {txid} else {}, {txid})
      && (hits || lookup.Thrown? || StampFits(s1, txid, height))
  }

  lemma TscExact(h: Hash, s: Spv, txid: string, height: int, proof: Option<TscProof>, reply: Option<Header>)
    requires Inv(h, s)
    ensures var s' := VerifyTsc(h, s, txid, height, proof, reply);
      && (Inv(h, s') <==> TscFits(h, s, txid, height, proof, reply))
      && (txid in s.rows && proof.Some? && ProofHits(h, txid, proof.value, GetHeader(h, s, height, reply).1) ==>
            (Proved(h, s', txid) <==> OfHeight(Fetched(h, s, height, reply), height)))
  {
    if proof.None? {
      StampAfter(h, s, s, txid, height, None);
    } else {
      var (s1, lookup) := GetHeader(h, s, height, reply);
      HeaderRead(h, s, height, reply);
      var hits := ProofHits(h, txid, proof.value, lookup);
      if hits {
        WalkIncludes(h, txid, proof.value.index, proof.value.nodes, Lower(lookup.header.merkleRoot));
        ProofWriteExact(h, s, s1, txid, height, Lower(lookup.header.merkleRoot), Fetched(h, s, height, reply));
      } else {
        StampAfter(h, s, s1, txid, height, Fetched(h, s, height, reply));
      }
    }
  }

  lemma ProofWriteExact(h: Hash, s: Spv, s1: Spv, txid: string, height: int, root: string, fetched: Option<Header>)
    requires Inv(h, s) && HasRead(h, s, s1, height, fetched) && Included(h, txid, root)
    requires Working(s, height, fetched).Some? && root == Lower(Working(s, height, fetched).value.merkleRoot)
    ensures var s' := RecordVerified(s1, txid, height, root);
      && (Inv(h, s') <==> FetchFits(s, height, fetched, if txid in s.rows then {txid} else {}, {txid}))
      && (txid in s.rows ==> (Proved(h, s', txid) <==> OfHeight(fetched, height)))
  {
    RecordExact(h, s, RecordVerified(s1, txid, height, root), height, fetched, root,
                if txid in s.rows then {txid} else {}, {txid});
  }

  /** A stamp, after a header may have been fetched. */
  lemma StampAfter(h: Hash, s: Spv, s1: Spv, txid: string, height: int, fetched: Option<Header>)
    requires Inv(h, s) && HasRead(h, s, s1, height, fetched)
    ensures Inv(h, StampHeight(s1, txid, height)) <==>
      FetchFits(s, height, fetched, {}, {txid}) && StampFits(s1, txid, height)
  {
    if fetched.Some? {
      OthersExact(h, s, fetched.value, {txid});
      UnheldHasNoVerdicts(h, s, height);
    } else {
      assert OthersSound(h, s, s.headers, {txid});
    }
    var s' := StampHeight(s1, txid, height);
    assert OthersSound(h, s, s1.headers, {txid}) <==>
      forall t :: t in s.rows && t != txid ==> RowSound(h, s'.headers, t, s'.rows[t]);
    if txid in s.rows {
      assert RowSound(h, s.headers, txid, s.rows[txid]);
      assert RowSound(h, s'.headers, txid, s'.rows[txid]) <==> StampFits(s1, txid, height);
    }
  }

  /** The rows a drain, or a batch, gives a verdict. */
  function DrainVerdicts(s: Spv, done: set<string>, tree: Option<CachedTree>): set<string> {
    if tree.None? then {} else set t | t in s.rows && s.rows[t].status == Seen && t in InBlock(tree.value) && t !in done
  }

  function BatchVerdicts(s: Spv, batch: set<string>, bumpBuilt: set<string>, tree: Option<CachedTree>): set<string> {
    if tree.None? then {}
    else
      set t | t in s.rows && t in batch && Lower(t) in InBlock(tree.value)
              && (t in bumpBuilt ==> s.rows[t].status == Seen)
  }

  ghost predicate DrainFits(h: Hash, s: Spv, height: int, done: set<string>, list: Option<seq<string>>,
                            reply: Option<Header>)
  {
    var verdicts := DrainVerdicts(s, done, EnsureTree(h, s, height, list, reply).1);
    FetchFits(s, height, Fetched(h, s, height, reply), verdicts, {})
  }

  /** Comparing a block with the backlog, once its tree is there. */
  lemma DrainWriteExact(h: Hash, s: Spv, s1: Spv, height: int, done: set<string>, c: CachedTree,
                        fetched: Option<Header>)
    requires Inv(h, s) && HasRead(h, s, s1, height, fetched) && TreeSound(h, c)
    requires Working(s, height, fetched).Some? && c.merkleRoot == Lower(Working(s, height, fetched).value.merkleRoot)
    ensures var verdicts, s' := DrainVerdicts(s, done, Some(c)), s1.(rows := DrainRows(s1.rows, height, c, done));
      && (Inv(h, s') <==> FetchFits(s, height, fetched, verdicts, {}))
      && forall t :: t in verdicts ==> (Proved(h, s', t) <==> OfHeight(fetched, height))
  {
    var verdicts, s' := DrainVerdicts(s, done, Some(c)), s1.(rows := DrainRows(s1.rows, height, c, done));
    forall t | t in s.rows ensures RowSound(h, s.headers, t, s.rows[t]) {}
    forall t | t in verdicts ensures Included(h, t, c.merkleRoot) {
      BlockTextIsLower(c, t);
      TreeIncludes(h, c, t);
    }
    RecordExact(h, s, s', height, fetched, c.merkleRoot, verdicts, {});
  }

  lemma DrainExact(h: Hash, s: Spv, height: int, done: set<string>, list: Option<seq<string>>, reply: Option<Header>)
    requires Inv(h, s)
    ensures var s' := DrainHeight(h, s, height, done, list, reply);
      && (Inv(h, s') <==> DrainFits(h, s, height, done, list, reply))
      && forall t :: t in DrainVerdicts(s, done, EnsureTree(h, s, height, list, reply).1) ==>
           (Proved(h, s', t) <==> OfHeight(Fetched(h, s, height, reply), height))
  {
    TreeRead(h, s, height, list, reply);
    var (s1, tree) := EnsureTree(h, s, height, list, reply);
    var fetched := Fetched(h, s, height, reply);
    if tree.Some? { DrainWriteExact(h, s, s1, height, done, tree.value, fetched); }
    else { RecordExact(h, s, s1, height, fetched, "", {}, {}); }
  }

  ghost predicate BatchFits(h: Hash, s: Spv, height: int, batch: set<string>, bumpBuilt: set<string>,
                            list: Option<seq<string>>, reply: Option<Header>)
  {
    batch != {} ==>
      var verdicts := BatchVerdicts(s, batch, bumpBuilt, EnsureTree(h, s, height, list, reply).1);
      FetchFits(s, height, Fetched(h, s, height, reply), verdicts, {})
  }

  lemma BatchWriteExact(h: Hash, s: Spv, s1: Spv, height: int, batch: set<string>, bumpBuilt: set<string>,
                        c: CachedTree, fetched: Option<Header>)
    requires Inv(h, s) && HasRead(h, s, s1, height, fetched) && TreeSound(h, c)
    requires Working(s, height, fetched).Some? && c.merkleRoot == Lower(Working(s, height, fetched).value.merkleRoot)
    ensures var verdicts := BatchVerdicts(s, batch, bumpBuilt, Some(c));
      var s' := s1.(rows := BatchRows(s1.rows, batch, height, c, bumpBuilt));
      && (Inv(h, s') <==> FetchFits(s, height, fetched, verdicts, {}))
      && forall t :: t in verdicts ==> (Proved(h, s', t) <==> OfHeight(fetched, height))
  {
    var verdicts := BatchVerdicts(s, batch, bumpBuilt, Some(c));
    var s' := s1.(rows := BatchRows(s1.rows, batch, height, c, bumpBuilt));
    forall t | t in s.rows ensures RowSound(h, s.headers, t, s.rows[t]) {}
    forall t | t in verdicts ensures Included(h, t, c.merkleRoot) { TreeIncludes(h, c, t); }
    RecordExact(h, s, s', height, fetched, c.merkleRoot, verdicts, {});
  }

  lemma BatchExact(h: Hash, s: Spv, height: int, batch: set<string>, bumpBuilt: set<string>,
                   list: Option<seq<string>>, reply: Option<Header>)
    requires Inv(h, s) && batch != {}
    ensures var s' := VerifyOneBlock(h, s, height, batch, bumpBuilt, list, reply);
      && (Inv(h, s') <==> BatchFits(h, s, height, batch, bumpBuilt, list, reply))
      && forall t :: t in BatchVerdicts(s, batch, bumpBuilt, EnsureTree(h, s, height, list, reply).1) ==>
           (Proved(h, s', t) <==> OfHeight(Fetched(h, s, height, reply), height))
  {
    TreeRead(h, s, height, list, reply);
    var (s1, tree) := EnsureTree(h, s, height, list, reply);
    var fetched := Fetched(h, s, height, reply);
    if tree.Some? { BatchWriteExact(h, s, s1, height, batch, bumpBuilt, tree.value, fetched); }
    else { RecordExact(h, s, s1, height, fetched, "", {}, {}); }
  }

  /** Giving a row up is unconditional too: sound exactly on rows without a verdict. */
  lemma GiveUpExact(h: Hash, s: Spv, txid: string)
    requires Inv(h, s) && txid in s.rows
    ensures Inv(h, GiveUp(s, txid)) <==> !s.rows[txid].spvVerified
    ensures Proved(h, GiveUp(s, txid), txid) <==> !s.rows[txid].spvVerified
    ensures Inv(h, Reject(s, txid))
  {
    var s' := GiveUp(s, txid);
    assert RowSound(h, s.headers, txid, s.rows[txid]);
    if Inv(h, s') { assert RowSound(h, s'.headers, txid, s'.rows[txid]); }
    forall t | t in s.rows && t != txid ensures RowSound(h, s'.headers, t, s'.rows[t]) {
      assert RowSound(h, s.headers, t, s.rows[t]);
    }
  }

  /** The height stamp is unconditional: sound exactly on rows without a verdict, or when nothing moves. */
  lemma StampExact(h: Hash, s: Spv, txid: string, height: int)
    requires Inv(h, s) && txid in s.rows
    ensures Inv(h, StampHeight(s, txid, height)) <==>
      (!s.rows[txid].spvVerified
       || (height in s.headers && Lower(s.headers[height].merkleRoot) == s.rows[txid].provenRoot))
  {
    var s' := StampHeight(s, txid, height);
    assert RowSound(h, s.headers, txid, s.rows[txid]);
    if Inv(h, s') { assert RowSound(h, s'.headers, txid, s'.rows[txid]); }
  }

  // ---------- exactly when a run keeps every verdict standing ----------

  /** What the code does not check of an event, and needs. */
  ghost predicate Fits(h: Hash, s: Spv, e: Event) {
    match e
    case HeaderSync(header) => SyncFits(h, s, header)
    case BumpArrives(txid, bump, claimed, reply) => BumpFits(h, s, txid, bump, reply)
    case TscPoll(txid, height, proof, reply) => TscFits(h, s, txid, height, proof, reply)
    case Drain(height, done, list, reply) => DrainFits(h, s, height, done, list, reply)
    case Batch(height, batch, bumpBuilt, list, reply) => BatchFits(h, s, height, batch, bumpBuilt, list, reply)
    case GivenUp(txid) => !Verified(s, txid)
    case _ => true
  }

  lemma StepExact(h: Hash, s: Spv, e: Event)
    requires Inv(h, s)
    ensures Inv(h, Step(h, s, e)) <==> Fits(h, s, e)
  {
    match e
    case HeaderSync(header) => SyncedHeaderExact(h, s, header);
    case BumpArrives(txid, bump, claimed, reply) => BumpExact(h, s, txid, bump, claimed, reply);
    case TscPoll(txid, height, proof, reply) => TscExact(h, s, txid, height, proof, reply);
    case Drain(height, done, list, reply) => DrainExact(h, s, height, done, list, reply);
    case Batch(height, batch, bumpBuilt, list, reply) =>
      if batch != {} { BatchExact(h, s, height, batch, bumpBuilt, list, reply); }
    case GivenUp(txid) => if txid in s.rows { GiveUpExact(h, s, txid); }
    case Rejected(txid) => if txid in s.rows { GiveUpExact(h, s, txid); }
    case Reported(txid, height) =>
      if ReportHeight(s, txid, height) != s {
        assert RowSound(h, s.headers, txid, s.rows[txid]);
        StampExact(h, s, txid, height);
      }
    case _ => OthersStay(h, s, Step(h, s, e));
  }

  /** Dropping memo or trees, or adding a pending row. */
  lemma OthersStay(h: Hash, s: Spv, s': Spv)
    requires Inv(h, s) && MemoSound(s') && TreesSound(h, s') && s'.headers == s.headers
    requires forall t :: t in s'.rows ==> !s'.rows[t].spvVerified || (t in s.rows && s'.rows[t] == s.rows[t])
    ensures Inv(h, s')
  {
  }

  ghost predicate StandingAt(h: Hash, events: seq<Event>, k: nat)
    requires k <= |events|
  {
    RowsSound(h, Run(h, events[..k]))
  }

  ghost predicate FitsAt(h: Hash, events: seq<Event>, k: nat)
    requires k < |events|
  {
    Fits(h, Run(h, events[..k]), events[k])
  }

  /** Every verdict stands, at every moment of the run. */
  ghost predicate AlwaysStanding(h: Hash, events: seq<Event>) {
    forall k :: 0 <= k <= |events| ==> StandingAt(h, events, k)
  }

  ghost predicate AlwaysFits(h: Hash, events: seq<Event>) {
    forall k :: 0 <= k < |events| ==> FitsAt(h, events, k)
  }

  lemma {:induction false} RunKeepsTables(h: Hash, events: seq<Event>)
    ensures MemoSound(Run(h, events)) && TreesSound(h, Run(h, events))
    decreases |events|
  {
    if events != [] {
      RunKeepsTables(h, events[..|events| - 1]);
      StepKeepsTables(h, Run(h, events[..|events| - 1]), events[|events| - 1]);
    }
  }

  /**
   Over every run, with no assumption about answers: at every moment each verified row is mined and
   proved into the root of the header held at its height, the one its verdict was made against, if and
   only if every event fits the state it meets.
   */
  lemma {:induction false} RunExact(h: Hash, events: seq<Event>)
    ensures AlwaysStanding(h, events) <==> AlwaysFits(h, events)
    decreases |events|
  {
    if events == [] {
      assert events[..0] == [];
    } else {
      var n := |events| - 1;
      var front, e := events[..n], events[n];
      assert events == front + [e];
      RunExact(h, front);
      OneMoreStanding(h, front, e);
      OneMoreFits(h, front, e);
      RunKeepsTables(h, front);
      RunKeepsTables(h, events);
      if AlwaysStanding(h, front) {
        assert StandingAt(h, front, n) && front[..n] == front;
        StepExact(h, Run(h, front), e);
      }
    }
  }

  lemma OneMoreStanding(h: Hash, front: seq<Event>, e: Event)
    ensures AlwaysStanding(h, front + [e]) <==> AlwaysStanding(h, front) && RowsSound(h, Run(h, front + [e]))
  {
    var events, n := front + [e], |front|;
    assert StandingAt(h, events, n + 1) <==> RowsSound(h, Run(h, events)) by { assert events[..n + 1] == events; }
    forall k | 0 <= k <= n ensures StandingAt(h, events, k) == StandingAt(h, front, k) {
      EarlierMoment(h, front, e, k);
    }
  }

  lemma OneMoreFits(h: Hash, front: seq<Event>, e: Event)
    ensures AlwaysFits(h, front + [e]) <==> AlwaysFits(h, front) && Fits(h, Run(h, front), e)
  {
    var events, n := front + [e], |front|;
    assert FitsAt(h, events, n) <==> Fits(h, Run(h, front), e) by { assert events[..n] == front; }
    forall k | 0 <= k < n ensures FitsAt(h, events, k) == FitsAt(h, front, k) { EarlierMoment(h, front, e, k); }
  }

  lemma EarlierMoment(h: Hash, front: seq<Event>, e: Event, k: nat)
    requires k <= |front|
    ensures StandingAt(h, front + [e], k) == StandingAt(h, front, k)
    ensures k < |front| ==> FitsAt(h, front + [e], k) == FitsAt(h, front, k)
  {
    assert (front + [e])[..k] == front[..k];
  }

  // ---------- what well-served runs keep ----------

  /** A step holds what it held, or a header it was served. */
  lemma StepHeaders(h: Hash, s: Spv, e: Event)
    requires MemoSound(s) && TreesSound(h, s)
    ensures HeldOrServed(h, s, Step(h, s, e), ServedBy(e))
  {
    StepReads(h, s, e);
    ReadsKeepTables(h, s, e);
  }

  /** A root text equal to a canonical root, up to case, is in lower case. */
  lemma CanonicalRootIsLower(h: Hash, txid: string, b: Bump, root: string)
    requires TscRoot(h, txid, b.index, b.nodes).Some? && IsHashText(root)
    requires Lower(TscRoot(h, txid, b.index, b.nodes).value) == Lower(root)
    ensures Lower(TscRoot(h, txid, b.index, b.nodes).value) == TscRoot(h, txid, b.index, b.nodes).value
  {
    LowerRootSame(h, txid, b.index, b.nodes, root);
    HashTextIsDigest(root);
  }

  lemma WorkingIsCanonical(h: Hash, s: Spv, height: int, reply: Option<Header>, served: set<Header>)
    requires Good(h, s, served) && (reply.Some? ==> Canonical(reply.value))
    ensures var working := Working(s, height, Fetched(h, s, height, reply)); working.Some? ==> Canonical(working.value)
  {
  }

  /** A well-served event fits, or two served headers collide. */
  lemma ServedFits(h: Hash, s: Spv, e: Event, served: set<Header>)
    requires Good(h, s, served) && WellServed(e) && ServedBy(e) <= served && BlindWriteFits(h, s, e)
    ensures Fits(h, s, e) || CollisionAmong(h, served)
  {
    if Reply(e).Some? { assert Reply(e).value in ServedBy(e); }
    match e
    case HeaderSync(hd) =>
      assert hd in ServedBy(e);
      if VerifyProofOfWork(h, hd) && hd.height in s.headers && s.headers[hd.height].hash == hd.hash {
        SameHashSameRoot(h, s.headers[hd.height], hd);
      }
    case BumpArrives(txid, bump, claimed, reply) =>
      if bump.Some? && TscRoot(h, txid, bump.value.index, bump.value.nodes).Some? {
        var b := bump.value;
        var root := TscRoot(h, txid, b.index, b.nodes).value;
        HeaderRead(h, s, b.height, reply);
        if RootHits(root, GetHeader(h, s, b.height, reply).1) {
          WorkingIsCanonical(h, s, b.height, reply, served);
          CanonicalRootIsLower(h, txid, b, Working(s, b.height, Fetched(h, s, b.height, reply)).value.merkleRoot);
        }
      }
    case _ =>
  }

  lemma StepKeeps(h: Hash, s: Spv, e: Event, served: set<Header>)
    requires Good(h, s, served) && WellServed(e) && ServedBy(e) <= served && BlindWriteFits(h, s, e)
    ensures Good(h, Step(h, s, e), served) || CollisionAmong(h, served)
  {
    ServedFits(h, s, e, served);
    StepExact(h, s, e);
    StepHeaders(h, s, e);
  }

  lemma {:induction false} RunStaysGood(h: Hash, events: seq<Event>)
    requires (forall e :: e in events ==> WellServed(e)) && BlindWritesFit(h, events)
    ensures Good(h, Run(h, events), Served(events)) || CollisionAmong(h, Served(events))
    decreases |events|
  {
    if events != [] {
      var front, e := events[..|events| - 1], events[|events| - 1];
      assert forall k :: 0 <= k < |front| ==> front[..k] == events[..k] && front[k] == events[k];
      RunStaysGood(h, front);
      var s := Run(h, front);
      if Good(h, s, Served(front)) {
        assert Good(h, s, Served(events));
        StepKeeps(h, s, e, Served(events));
      }
    }
  }

  /** Over every run, a verified row is mined and proved into the header held at its height. */
  lemma VerifiedRowsStayProved(h: Hash, events: seq<Event>, txid: string)
    requires (forall e :: e in events ==> WellServed(e)) && BlindWritesFit(h, events)
    ensures Proved(h, Run(h, events), txid) || CollisionAmong(h, Served(events))
  {
    RunStaysGood(h, events);
    if Good(h, Run(h, events), Served(events)) { InvProves(h, Run(h, events), txid); }
  }

  /** How far a sync of the tip comes: past every header, or to the one whose insert is refused. */
  function SyncedTo(h: Hash, s: Spv, served: seq<Header>): nat
    decreases |served|
  {
    if served == [] then 0
    else if Refused(h, s, served[0]) then 1
    else 1 + SyncedTo(h, SyncOne(h, s, served[0]), served[1..])
  }

  /** A sync of the tip is a run of its headers, as far as it comes. */
  lemma {:induction false} SyncIsRun(h: Hash, events: seq<Event>, served: seq<Header>)
    ensures var n := SyncedTo(h, Run(h, events), served);
      && n <= |served|
      && SyncTip(h, Run(h, events), served) == Run(h, events + Syncs(served[..n]))
    decreases |served|
  {
    if served == [] {
      assert events + Syncs(served[..0]) == events;
    } else {
      OneMore(h, events, served[0]);
      var more, rest := events + [HeaderSync(served[0])], served[1..];
      if Refused(h, Run(h, events), served[0]) {
        assert Syncs(served[..1]) == [HeaderSync(served[0])];
      } else {
        SyncIsRun(h, more, rest);
        SyncsJoin(events, served, SyncedTo(h, Run(h, more), rest));
      }
    }
  }

  lemma SyncsJoin(events: seq<Event>, served: seq<Header>, n: nat)
    requires served != [] && n <= |served[1..]|
    ensures events + [HeaderSync(served[0])] + Syncs(served[1..][..n]) == events + Syncs(served[..n + 1])
  {
  }

  lemma OneMore(h: Hash, events: seq<Event>, hd: Header)
    ensures Run(h, events + [HeaderSync(hd)]) == SyncOne(h, Run(h, events), hd)
  {
    assert (events + [HeaderSync(hd)])[..|events|] == events;
  }

  function Syncs(served: seq<Header>): (events: seq<Event>)
    ensures |events| == |served| && forall i :: 0 <= i < |served| ==> events[i] == HeaderSync(served[i])
  {
    seq(|served|, i requires 0 <= i < |served| => HeaderSync(served[i]))
  }

  // ---------- runs in which what is not checked goes wrong ----------

  /** The lone transaction of a block is broadcast, and drained at a height that is not the block's. */
  function FalseDrain(hd: Header, height: int): seq<Event> {
    [Broadcast(hd.merkleRoot), Drain(height, {}, Some([hd.merkleRoot]), Some(hd))]
  }

  function LonePending(txid: string): Spv { EMPTY.(rows := map[txid := Row(Seen, None, false, "")]) }

  lemma FalseDrainIs(h: Hash, hd: Header, height: int)
    ensures Run(h, FalseDrain(hd, height)) ==
      DrainHeight(h, LonePending(hd.merkleRoot), height, {}, Some([hd.merkleRoot]), Some(hd))
  {
    TwoSteps(h, Broadcast(hd.merkleRoot), Drain(height, {}, Some([hd.merkleRoot]), Some(hd)));
    assert Step(h, EMPTY, Broadcast(hd.merkleRoot)) == LonePending(hd.merkleRoot);
  }

  /** A provider that answers for another height: one header and one block are enough to record a false verdict. */
  lemma WrongHeightRun(h: Hash, hd: Header, height: int)
    requires VerifyProofOfWork(h, hd) && FitsColumns(hd) && IsHashText(hd.merkleRoot) && hd.height != height
    ensures !Proved(h, Run(h, FalseDrain(hd, height)), hd.merkleRoot)
  {
    FalseDrainIs(h, hd, height);
    LoneTree(h, LonePending(hd.merkleRoot), height, hd);
    FalseVerdict(h, LonePending(hd.merkleRoot), height, Some([hd.merkleRoot]), hd, hd.merkleRoot);
  }

  lemma FalseVerdict(h: Hash, s: Spv, height: int, list: Option<seq<string>>, hd: Header, txid: string)
    requires Inv(h, s) && Fetches(h, s, height, Some(hd)) && hd.height != height
    requires txid in DrainVerdicts(s, {}, EnsureTree(h, s, height, list, Some(hd)).1)
    ensures !Proved(h, DrainHeight(h, s, height, {}, list, Some(hd)), txid)
  {
    DrainExact(h, s, height, {}, list, Some(hd));
  }

  lemma LoneTree(h: Hash, s: Spv, height: int, hd: Header)
    requires VerifyProofOfWork(h, hd) && FitsColumns(hd) && IsHashText(hd.merkleRoot) && s == EMPTY.(rows := s.rows)
    requires hd.merkleRoot in s.rows && s.rows[hd.merkleRoot].status == Seen
    ensures hd.merkleRoot in DrainVerdicts(s, {}, EnsureTree(h, s, height, Some([hd.merkleRoot]), Some(hd)).1)
  {
    var txid, list := hd.merkleRoot, [hd.merkleRoot];
    LoneTransaction(h, txid);
    assert EnsureTree(h, s, height, Some(list), Some(hd)).1 == Some(CachedTree(list, txid));
    assert CleanAll(list)[0] == txid;
  }

  lemma TwoSteps(h: Hash, a: Event, b: Event)
    ensures Run(h, [a, b]) == Step(h, Step(h, EMPTY, a), b)
  {
    assert [a, b][..1] == [a] && [a][..0] == [];
    assert Run(h, [a]) == Step(h, EMPTY, a);
  }

  /** A block of one transaction has its id as its root. */
  lemma LoneTransaction(h: Hash, txid: string)
    requires IsHashText(txid)
    ensures Clean(txid) == txid && Lower(txid) == txid && Buildable([txid]) && RootText(h, [txid]) == txid
  {
    HashTextIsDigest(txid);
    assert !IsSpace(txid[0]) && !IsSpace(txid[63]) by { assert IsLowerHexDigit(txid[0]) && IsLowerHexDigit(txid[63]); }
    assert Trim(txid) == txid;
    assert Leaves([txid]) == [LeBytes(txid)];
  }

  /** And there are such answers: a hash and a header that pass, at any height but the one asked. */
  lemma WrongHeightHappens(height: int)
    ensures exists h: Hash, hd: Header ::
      && VerifyProofOfWork(h, hd) && Canonical(hd) && hd.height != height
      && !Proved(h, Run(h, FalseDrain(hd, height)), hd.merkleRoot)
  {
    var h, hd := EasyHeader(height + 1);
    WrongHeightRun(h, hd, height);
  }

  /** A hash that is zero everywhere, and a header that clears the least target under it. */
  lemma EasyHeader(height: int) returns (h: Hash, hd: Header)
    ensures VerifyProofOfWork(h, hd) && Canonical(hd) && FitsColumns(hd) && hd.height == height
    ensures hd.merkleRoot[0] == '0'
  {
    var zero: Digest := ZeroDigest();
    h := (b: Bytes) => zero;
    var text := Text(zero);
    DigestTextReads(zero);
    TextRoundTrip(zero);
    TextStartsWithLast(zero);
    LowerKeepsHex(text);
    hd := Header(height, text, text, text, 0, 0x0300_0001, 0, 0);
    RootInside(hd);
    ZeroValue(zero);
    EasyTarget(hd.bits);
  }

  lemma EasyTarget(bits: int)
    requires bits == 0x0300_0001
    ensures TargetFromBits(bits) == 1
  {
    assert Pow256(0) == 1;
  }

  function ZeroDigest(): (d: Digest)
    ensures forall i :: 0 <= i < |d| ==> d[i] == 0
  {
    seq<Num>(32, _ => 0)
  }

  lemma {:induction false} ZeroValue(bs: Bytes)
    requires forall i :: 0 <= i < |bs| ==> bs[i] == 0
    ensures Value(bs) == 0
  {
    if bs != [] { ZeroValue(bs[1..]); }
  }

  /** The lone transaction of a block is drained, then the block's header is served again with another spelling. */
  function TwinSync(f: Header, i: nat): seq<Event>
    requires i < |f.merkleRoot|
  {
    [Broadcast(f.merkleRoot), Drain(f.height, {}, Some([f.merkleRoot]), Some(f)), HeaderSync(PlusTwin(f, i))]
  }

  /** A header spelled with a sign passes every check, is merged over its own, and leaves no proof of the row. */
  lemma PlusTwinRun(h: Hash, f: Header, i: nat)
    requires VerifyProofOfWork(h, f) && Canonical(f) && i < 64 && i % 2 == 0 && f.merkleRoot[i] == '0'
    ensures !Proved(h, Run(h, TwinSync(f, i)), f.merkleRoot)
  {
    var g, txid, run := PlusTwin(f, i), f.merkleRoot, TwinSync(f, i);
    PlusTwinPasses(h, f, i);
    LoneDrain(h, f);
    assert run == FalseDrain(f, f.height) + [HeaderSync(g)];
    OneMore(h, FalseDrain(f, f.height), g);
    var s := Run(h, FalseDrain(f, f.height));
    assert SyncOne(h, s, g) == Store(s, g);
    LowerChars(g.merkleRoot);
    NotComputed(h, txid, Lower(g.merkleRoot), i);
  }

  /** Drained at its own height, the lone transaction is verified against the header. */
  lemma LoneDrain(h: Hash, f: Header)
    requires VerifyProofOfWork(h, f) && Canonical(f) && FitsColumns(f)
    ensures var s := Run(h, FalseDrain(f, f.height));
      s.headers == map[f.height := f] && s.rows == map[f.merkleRoot := Confirmed(f.height, f.merkleRoot)]
  {
    FalseDrainIs(h, f, f.height);
    LoneTree(h, LonePending(f.merkleRoot), f.height, f);
    LoneDrained(h, LonePending(f.merkleRoot), f, Some([f.merkleRoot]));
  }

  lemma LoneDrained(h: Hash, s: Spv, f: Header, list: Option<seq<string>>)
    requires VerifyProofOfWork(h, f) && IsHashText(f.merkleRoot) && FitsColumns(f)
    requires s == EMPTY.(rows := map[f.merkleRoot := Row(Seen, None, false, "")])
    requires f.merkleRoot in DrainVerdicts(s, {}, EnsureTree(h, s, f.height, list, Some(f)).1)
    ensures var s' := DrainHeight(h, s, f.height, {}, list, Some(f));
      s'.headers == map[f.height := f] && s'.rows == map[f.merkleRoot := Confirmed(f.height, f.merkleRoot)]
  {
    TreeRead(h, s, f.height, list, Some(f));
    HashTextIsDigest(f.merkleRoot);
    LoneRow(h, s, f, EnsureTree(h, s, f.height, list, Some(f)).1);
  }

  lemma LoneRow(h: Hash, s: Spv, f: Header, tree: Option<CachedTree>)
    requires f.merkleRoot in DrainVerdicts(s, {}, tree) && tree.value.merkleRoot == f.merkleRoot
    requires s.rows == map[f.merkleRoot := Row(Seen, None, false, "")]
    ensures DrainRows(s.rows, f.height, tree.value, {}) == map[f.merkleRoot := Confirmed(f.height, f.merkleRoot)]
  {
  }

  /** And there are such headers: a hash and a header that pass at every height. */
  lemma PlusTwinHappens(height: int)
    ensures exists h: Hash, f: Header ::
      && VerifyProofOfWork(h, f) && Canonical(f) && f.height == height && f.merkleRoot[0] == '0'
      && !Proved(h, Run(h, TwinSync(f, 0)), f.merkleRoot)
  {
    var h, f := EasyHeader(height);
    PlusTwinRun(h, f, 0);
  }
}
