/** Fork detection and rewind of packages/node/src/indexer/unfinalizedBlocks.service.ts,
    on chains without finality. */
module UnfinalizedBlocks {
  import opened Collections

  /** An empty parent hash stands for a missing one. */
  datatype Header = Header(blockHeight: nat, blockHash: string, parentHash: string)

  /** What the node answers to header requests at the moment of one check. */
  datatype Chain = Chain(byHash: map<string, Header>, byHeight: map<nat, Header>)

  // ---------- detecting a fork ----------

  predicate Follows(child: Header, parent: Header) {
    child.parentHash == parent.blockHash
  }

  /** The height-based check of the last stored header that is done once after a start. */
  function StartupVerdict(chain: Chain, blocks: seq<Header>): Result<Option<Header>> {
    if blocks == [] then Ok(None)
    else
      var last := blocks[|blocks| - 1];
      if last.blockHeight !in chain.byHeight then Err("header not found")
      else if last.blockHash != chain.byHeight[last.blockHeight].blockHash
      then Ok(Some(chain.byHeight[last.blockHeight]))
      else Ok(None)
  }

  function LinkVerdict(blocks: seq<Header>): Option<Header> {
    if |blocks| > 2 && !Follows(blocks[|blocks| - 1], blocks[|blocks| - 2]) then Some(blocks[|blocks| - 1]) else None
  }

  function ForkVerdict(chain: Chain, startupCheck: bool, blocks: seq<Header>): Result<Option<Header>> {
    var startup := if startupCheck then StartupVerdict(chain, blocks) else Ok(None);
    if startup == Ok(None) then Ok(LinkVerdict(blocks)) else startup
  }

  // ---------- walking back from a fork ----------

  function Below(blocks: seq<Header>, height: nat): seq<Header> {
    if blocks == [] then []
    else
      var last := blocks[|blocks| - 1];
      Below(blocks[..|blocks| - 1], height) + (if last.blockHeight < height then [last] else [])
  }

  datatype Walk = Found(header: Header) | Exhausted(checking: Header) | Broken(error: string)

  /** Walks down the stored headers, highest first, and up the chain of parents in step. */
  function WalkBack(chain: Chain, stored: seq<Header>, checking: Header): Walk {
    if stored == [] then Exhausted(checking)
    else
      var header := stored[|stored| - 1];
      if header.blockHash == checking.blockHash || header.blockHash == checking.parentHash then Found(header)
      else if checking.parentHash == "" then Broken("Unable to get parent hash for header")
      else if checking.parentHash !in chain.byHash then Broken("header not found")
      else WalkBack(chain, stored[..|stored| - 1], chain.byHash[checking.parentHash])
  }

  /** The POI lookup of the base class. */
  datatype PoiOutcome = PoiHeader(header: Header) | PoiDisabled | PoiFailed(error: string)

  datatype Rewind = ToHeader(header: Header) | ToHeight(height: int) | Failed(error: string)

  function RewindFor(chain: Chain, blocks: seq<Header>, forked: Header, poi: Header -> PoiOutcome,
                     reindex: int): Rewind {
    match WalkBack(chain, Below(blocks, forked.blockHeight), forked)
    case Found(header) => ToHeader(header)
    case Broken(error) => Failed(error)
    case Exhausted(checking) =>
      match poi(checking)
      case PoiHeader(header) => ToHeader(header)
      case PoiDisabled => ToHeight(Max(0, forked.blockHeight - reindex))
      case PoiFailed(error) => Failed(error)
  }

  // ---------- the service ----------

  class UnfinalizedBlocksService {
    var startupCheck: bool
    var unfinalizedBlocks: seq<Header>

    constructor (saved: seq<Header>)
      ensures startupCheck && unfinalizedBlocks == saved
    {
      startupCheck, unfinalizedBlocks := true, saved;
    }

    method HasForked(chain: Chain) returns (r: Result<Option<Header>>)
      modifies this`startupCheck
      ensures !startupCheck
      ensures r == ForkVerdict(chain, old(startupCheck), unfinalizedBlocks)
    {
      if startupCheck {
        startupCheck := false;
        if unfinalizedBlocks != [] {
          var lastUnfinalized := unfinalizedBlocks[|unfinalizedBlocks| - 1];
          if lastUnfinalized.blockHeight !in chain.byHeight {
            return Err("header not found");
          }
          var checkUnfinalized := chain.byHeight[lastUnfinalized.blockHeight];
          if lastUnfinalized.blockHash != checkUnfinalized.blockHash {
            return Ok(Some(checkUnfinalized));
          }
        }
      }
      if |unfinalizedBlocks| <= 2 {
        return Ok(None);
      }
      var i := |unfinalizedBlocks| - 1;
      var current, parent := unfinalizedBlocks[i], unfinalizedBlocks[i - 1];
      if current.parentHash != parent.blockHash {
        return Ok(Some(current));
      }
      return Ok(None);
    }

    /** `fetches` counts the headers requested by hash. */
    method GetLastCorrectFinalizedBlock(chain: Chain, forked: Header, poi: Header -> PoiOutcome, reindex: int)
      returns (r: Rewind, fetches: nat)
      ensures r == RewindFor(chain, unfinalizedBlocks, forked, poi, reindex)
      ensures var best := Below(unfinalizedBlocks, forked.blockHeight);
        && fetches <= |best|
        && (WalkBack(chain, best, forked).Exhausted? ==> fetches == |best|)
    {
      var best := Below(unfinalizedBlocks, forked.blockHeight);
      var checking := forked;
      var n := |best|;
      fetches := 0;
      assert best[..n] == best;
      while n > 0
        invariant 0 <= n <= |best| && fetches == |best| - n
        invariant WalkBack(chain, best, forked) == WalkBack(chain, best[..n], checking)
      {
        var header := best[n - 1];
        assert best[..n][..n - 1] == best[..n - 1] && best[..n][n - 1] == header;
        if header.blockHash == checking.blockHash || header.blockHash == checking.parentHash {
          return ToHeader(header), fetches;
        }
        if checking.parentHash == "" {
          return Failed("Unable to get parent hash for header"), fetches;
        }
        if checking.parentHash !in chain.byHash {
          return Failed("header not found"), fetches;
        }
        checking := chain.byHash[checking.parentHash];
        fetches := fetches + 1;
        n := n - 1;
      }
      assert best[..n] == [];
      match poi(checking) {
        case PoiHeader(header) => r := ToHeader(header);
        case PoiDisabled => r := ToHeight(Max(0, forked.blockHeight - reindex));
        case PoiFailed(error) => r := Failed(error);
      }
    }
  }

  // ---------- ancestors ----------

  /** The n-th parent of a header, as far as the node can serve it. */
  function Up(chain: Chain, h: Header, n: nat): Option<Header> {
    if n == 0 then Some(h)
    else
      var child := Up(chain, h, n - 1);
      if child.Some? && child.value.parentHash != "" && child.value.parentHash in chain.byHash
      then Some(chain.byHash[child.value.parentHash])
      else None
  }

  /** `a` is the parent of the (n-1)-th parent of `h`. */
  predicate AncestorAt(chain: Chain, h: Header, n: nat, a: Header) {
    n >= 1 && Up(chain, h, n - 1).Some? && Follows(Up(chain, h, n - 1).value, a)
  }

  ghost predicate OnChainOf(chain: Chain, h: Header, a: Header) {
    exists n: nat :: AncestorAt(chain, h, n, a)
  }

  predicate Known(chain: Chain, blocks: seq<Header>, forked: Header, x: Header) {
    x in blocks || x == forked || x in chain.byHash.Values
  }

  /** Equal hashes mean equal headers, and a parent is one block lower. */
  ghost predicate ConsistentHashes(chain: Chain, blocks: seq<Header>, forked: Header) {
    && (forall x, y :: Known(chain, blocks, forked, x) && Known(chain, blocks, forked, y) ==>
          && (x.blockHash == y.blockHash ==> x == y)
          && (Follows(x, y) ==> x.blockHeight == y.blockHeight + 1))
  }

  /** Stored heights are contiguous and end just below `height`. */
  predicate ContiguousTo(blocks: seq<Header>, height: nat) {
    forall i :: 0 <= i < |blocks| ==> blocks[i].blockHeight + (|blocks| - i) == height
  }

  lemma {:induction false} HeightOfUp(chain: Chain, blocks: seq<Header>, forked: Header, n: nat)
    requires ConsistentHashes(chain, blocks, forked)
    requires forall k :: k in chain.byHash ==> chain.byHash[k].blockHash == k
    requires Up(chain, forked, n).Some?
    ensures var u := Up(chain, forked, n).value;
      Known(chain, blocks, forked, u) && u.blockHeight + n == forked.blockHeight
  {
    if n > 0 {
      HeightOfUp(chain, blocks, forked, n - 1);
      var child, u := Up(chain, forked, n - 1).value, Up(chain, forked, n).value;
      assert child.parentHash in chain.byHash && u in chain.byHash.Values;
      assert Follows(child, u);
    }
  }

  /** The header is the one checked, or its parent. */
  predicate Meets(header: Header, checking: Header) {
    header.blockHash == checking.blockHash || Follows(checking, header)
  }

  /** Step k of the walk compares the (k+1)-th stored header from the top with the k-th parent. */
  predicate MeetsAt(chain: Chain, stored: seq<Header>, from: Header, k: nat) {
    k < |stored| && Up(chain, from, k).Some? && Meets(stored[|stored| - 1 - k], Up(chain, from, k).value)
  }

  /** The walk after k steps, with no match so far. */
  lemma {:induction false} WalkAfter(chain: Chain, stored: seq<Header>, from: Header, k: nat)
    requires k <= |stored| && Up(chain, from, k).Some?
    requires forall j :: 0 <= j < k ==> !MeetsAt(chain, stored, from, j)
    ensures var w := WalkBack(chain, stored[..|stored| - k], Up(chain, from, k).value);
      && (w.Found? <==> exists n :: MeetsAt(chain, stored, from, n))
      && (w.Found? ==> exists n :: MeetsAt(chain, stored, from, n) && w.header == stored[|stored| - 1 - n]
                                && forall j :: 0 <= j < n ==> !MeetsAt(chain, stored, from, j))
    decreases |stored| - k
  {
    if k < |stored| {
      var left, checking := stored[..|stored| - k], Up(chain, from, k).value;
      assert left[|left| - 1] == stored[|stored| - 1 - k] && left[..|left| - 1] == stored[..|stored| - (k + 1)];
      if MeetsAt(chain, stored, from, k) {
      } else if Up(chain, from, k + 1).Some? {
        WalkAfter(chain, stored, from, k + 1);
      } else {
        forall n: nat | k < n
          ensures !MeetsAt(chain, stored, from, n)
        {
          if Up(chain, from, n).Some? {
            UpIsPrefixClosed(chain, from, n, k + 1);
          }
        }
      }
    }
  }

  /** Main result, for any stored list and any chain: the walk finds the header of the first step at which the two
      meet, and none if they never do. */
  lemma WalkExactly(chain: Chain, stored: seq<Header>, from: Header)
    ensures var w := WalkBack(chain, stored, from);
      && (w.Found? <==> exists n :: MeetsAt(chain, stored, from, n))
      && (w.Found? ==> exists n :: MeetsAt(chain, stored, from, n) && w.header == stored[|stored| - 1 - n]
                                && forall j :: 0 <= j < n ==> !MeetsAt(chain, stored, from, j))
  {
    assert stored[..|stored| - 0] == stored;
    WalkAfter(chain, stored, from, 0);
  }

  /** A stored header can be an ancestor only at the distance its height gives. */
  lemma AncestorDistance(chain: Chain, blocks: seq<Header>, forked: Header, a: Header)
    requires ConsistentHashes(chain, blocks, forked) && a in blocks && a.blockHeight < forked.blockHeight
    requires forall k :: k in chain.byHash ==> chain.byHash[k].blockHash == k
    ensures OnChainOf(chain, forked, a) <==> AncestorAt(chain, forked, forked.blockHeight - a.blockHeight, a)
  {
    if n: nat :| AncestorAt(chain, forked, n, a) {
      HeightOfUp(chain, blocks, forked, n - 1);
    }
  }

  lemma {:induction false} UpIsPrefixClosed(chain: Chain, h: Header, n: nat, m: nat)
    requires m <= n && Up(chain, h, n).Some?
    ensures Up(chain, h, m).Some?
  {
    if m < n {
      UpIsPrefixClosed(chain, h, n - 1, m);
    }
  }

  /** What consistent hashes mean for the walk: each stored header can meet the chain of parents at
      one distance only. */
  ghost predicate WellSpaced(chain: Chain, blocks: seq<Header>, forked: Header) {
    && (forall i :: 0 <= i < |blocks| ==>
          (OnChainOf(chain, forked, blocks[i]) <==> AncestorAt(chain, forked, |blocks| - i, blocks[i])))
    && (forall i, n: nat :: 0 <= i < |blocks| && n < |blocks| - i && Up(chain, forked, n).Some? ==>
          blocks[i].blockHash != Up(chain, forked, n).value.blockHash)
  }

  lemma ConsistentHashesSpaceBlocks(chain: Chain, blocks: seq<Header>, forked: Header)
    requires ConsistentHashes(chain, blocks, forked) && ContiguousTo(blocks, forked.blockHeight)
    requires forall h :: h in chain.byHash ==> chain.byHash[h].blockHash == h
    ensures WellSpaced(chain, blocks, forked)
  {
    forall i | 0 <= i < |blocks|
      ensures OnChainOf(chain, forked, blocks[i]) <==> AncestorAt(chain, forked, |blocks| - i, blocks[i])
    {
      assert blocks[i] in blocks;
      AncestorDistance(chain, blocks, forked, blocks[i]);
    }
    forall i, n: nat | 0 <= i < |blocks| && n < |blocks| - i && Up(chain, forked, n).Some?
      ensures blocks[i].blockHash != Up(chain, forked, n).value.blockHash
    {
      assert blocks[i] in blocks;
      HeightOfUp(chain, blocks, forked, n);
    }
  }

  /** Where the chain of parents breaks, no lower stored header is an ancestor. */
  lemma NothingBelowABreak(chain: Chain, blocks: seq<Header>, forked: Header, k: nat, j: nat)
    requires WellSpaced(chain, blocks, forked) && j + k + 1 < |blocks|
    requires Up(chain, forked, k + 1).None?
    ensures !OnChainOf(chain, forked, blocks[j])
  {
    if OnChainOf(chain, forked, blocks[j]) {
      UpIsPrefixClosed(chain, forked, |blocks| - j - 1, k + 1);
    }
  }

  /** The walk after k steps without a match, when k parents could be fetched. */
  lemma {:induction false} WalkFromStep(chain: Chain, blocks: seq<Header>, forked: Header, k: nat)
    requires WellSpaced(chain, blocks, forked)
    requires k <= |blocks| && Up(chain, forked, k).Some?
    requires forall j :: |blocks| - k <= j < |blocks| ==> !OnChainOf(chain, forked, blocks[j])
    ensures match WalkBack(chain, blocks[..|blocks| - k], Up(chain, forked, k).value)
      case Found(h) =>
        exists i :: 0 <= i < |blocks| && h == blocks[i] && OnChainOf(chain, forked, h)
                 && forall j :: i < j < |blocks| ==> !OnChainOf(chain, forked, blocks[j])
      case Exhausted(checking) =>
        && Up(chain, forked, |blocks|) == Some(checking)
        && forall j :: 0 <= j < |blocks| ==> !OnChainOf(chain, forked, blocks[j])
      case Broken(_) =>
        forall j :: 0 <= j < |blocks| ==> !OnChainOf(chain, forked, blocks[j])
    decreases |blocks| - k
  {
    if k < |blocks| {
      var i := |blocks| - k - 1;
      var header, checking := blocks[i], Up(chain, forked, k).value;
      var left := blocks[..|blocks| - k];
      assert left[|left| - 1] == header && left[..|left| - 1] == blocks[..|blocks| - (k + 1)];
      if header.blockHash == checking.parentHash {
        assert AncestorAt(chain, forked, k + 1, header);
      } else if Up(chain, forked, k + 1).Some? {
        WalkFromStep(chain, blocks, forked, k + 1);
      } else {
        forall j | 0 <= j < i
          ensures !OnChainOf(chain, forked, blocks[j])
        {
          NothingBelowABreak(chain, blocks, forked, k, j);
        }
      }
    }
  }

  /** Main result: the walk returns the highest stored header that is an ancestor of the forked one,
      and it returns one exactly when there is one. */
  lemma {:induction false} WalkFindsHighestCommonBlock(chain: Chain, best: seq<Header>, forked: Header)
    requires ConsistentHashes(chain, best, forked) && ContiguousTo(best, forked.blockHeight)
    requires forall h :: h in chain.byHash ==> chain.byHash[h].blockHash == h
    ensures WalkBack(chain, best, forked).Found? <==> exists a :: a in best && OnChainOf(chain, forked, a)
    ensures var w := WalkBack(chain, best, forked); w.Found? ==>
      && w.header in best && OnChainOf(chain, forked, w.header)
      && forall a :: a in best && a.blockHeight > w.header.blockHeight ==> !OnChainOf(chain, forked, a)
  {
    assert best[..|best| - 0] == best;
    ConsistentHashesSpaceBlocks(chain, best, forked);
    WalkFromStep(chain, best, forked, 0);
    var w := WalkBack(chain, best, forked);
    if w.Found? {
      var i :| 0 <= i < |best| && w.header == best[i] && OnChainOf(chain, forked, w.header)
        && forall j :: i < j < |best| ==> !OnChainOf(chain, forked, best[j]);
      forall a | a in best && a.blockHeight > w.header.blockHeight
        ensures !OnChainOf(chain, forked, a)
      {
        var j :| 0 <= j < |best| && best[j] == a;
      }
    }
  }

  lemma {:induction false} ExhaustedPosition(chain: Chain, best: seq<Header>, forked: Header)
    requires ConsistentHashes(chain, best, forked) && ContiguousTo(best, forked.blockHeight)
    requires forall h :: h in chain.byHash ==> chain.byHash[h].blockHash == h
    requires WalkBack(chain, best, forked).Exhausted?
    ensures var checking := WalkBack(chain, best, forked).checking;
      Up(chain, forked, |best|) == Some(checking) && checking.blockHeight == forked.blockHeight - |best|
  {
    assert best[..|best| - 0] == best;
    ConsistentHashesSpaceBlocks(chain, best, forked);
    WalkFromStep(chain, best, forked, 0);
    HeightOfUp(chain, best, forked, |best|);
  }

  /** The walk fails at an ancestor whose parent cannot be fetched. */
  predicate BreaksAt(chain: Chain, forked: Header, n: nat, error: string) {
    && Up(chain, forked, n).Some?
    && var parentHash := Up(chain, forked, n).value.parentHash;
       if parentHash == "" then error == "Unable to get parent hash for header"
       else parentHash !in chain.byHash && error == "header not found"
  }

  lemma {:induction false} BrokenWalk(chain: Chain, best: seq<Header>, forked: Header, k: nat)
    requires k <= |best| && Up(chain, forked, k).Some?
    requires WalkBack(chain, best[..|best| - k], Up(chain, forked, k).value).Broken?
    ensures var error := WalkBack(chain, best[..|best| - k], Up(chain, forked, k).value).error;
      exists n: nat :: k <= n < |best| && BreaksAt(chain, forked, n, error)
    decreases |best| - k
  {
    var left, checking := best[..|best| - k], Up(chain, forked, k).value;
    assert left != [];
    if checking.parentHash != "" && checking.parentHash in chain.byHash {
      assert left[..|left| - 1] == best[..|best| - (k + 1)];
      BrokenWalk(chain, best, forked, k + 1);
    } else {
      assert BreaksAt(chain, forked, k, WalkBack(chain, left, checking).error);
    }
  }

  /** Without a common block the walk ends at the ancestor as many blocks below the fork as there
      are stored headers, one fetch each; with POI disabled the height is between 0 and the fork's. */
  lemma {:induction false} FallbackPosition(chain: Chain, blocks: seq<Header>, forked: Header,
                                            poi: Header -> PoiOutcome, reindex: nat)
    requires var best := Below(blocks, forked.blockHeight);
      && ConsistentHashes(chain, best, forked) && ContiguousTo(best, forked.blockHeight)
      && (forall h :: h in chain.byHash ==> chain.byHash[h].blockHash == h)
      && WalkBack(chain, best, forked).Exhausted?
    ensures var best := Below(blocks, forked.blockHeight);
      var checking := WalkBack(chain, best, forked).checking;
      && Up(chain, forked, |best|) == Some(checking)
      && checking.blockHeight == forked.blockHeight - |best|
      && (poi(checking).PoiDisabled? ==>
            var r := RewindFor(chain, blocks, forked, poi, reindex);
            && r.ToHeight? && 0 <= r.height <= forked.blockHeight
            && (r.height + reindex == forked.blockHeight || (r.height == 0 && forked.blockHeight < reindex)))
      && (poi(checking).PoiHeader? ==> RewindFor(chain, blocks, forked, poi, reindex) == ToHeader(poi(checking).header))
      && (poi(checking).PoiFailed? ==> RewindFor(chain, blocks, forked, poi, reindex) == Failed(poi(checking).error))
  {
    ExhaustedPosition(chain, Below(blocks, forked.blockHeight), forked);
  }

  // ---------- runs ----------

  datatype ServiceState = ServiceState(startupCheck: bool, blocks: seq<Header>)

  /** Steps of the indexer: a new block is stored and checked, the list is checked as it is, a finalized
      prefix is dropped, or the indexer restarts with the saved list. */
  datatype BlockStep =
    | AppendAndCheck(header: Header, chain: Chain)
    | Check(chain: Chain)
    | DropPrefix(count: nat)
    | Restart

  datatype Outcome = Running(state: ServiceState) | Stopped(blocks: seq<Header>, verdict: Result<Option<Header>>)

  predicate Contiguous(blocks: seq<Header>) {
    forall i :: 0 <= i < |blocks| - 1 ==> blocks[i + 1].blockHeight == blocks[i].blockHeight + 1
  }

  function Checked(startupCheck: bool, blocks: seq<Header>, chain: Chain): Outcome {
    var verdict := ForkVerdict(chain, startupCheck, blocks);
    if verdict == Ok(None) then Running(ServiceState(false, blocks)) else Stopped(blocks, verdict)
  }

  function Advance(s: ServiceState, step: BlockStep): Outcome {
    match step
    case AppendAndCheck(header, chain) =>
      if Contiguous(s.blocks + [header]) then Checked(s.startupCheck, s.blocks + [header], chain)
      else Running(s) // only the next height is registered
    case Check(chain) => Checked(s.startupCheck, s.blocks, chain)
    case DropPrefix(count) => Running(s.(blocks := s.blocks[Min(count, |s.blocks|)..]))
    case Restart => Running(s.(startupCheck := true))
  }

  function RunSteps(s: ServiceState, steps: seq<BlockStep>): Outcome {
    if steps == [] then Running(s)
    else
      match RunSteps(s, steps[..|steps| - 1])
      case Running(s') => Advance(s', steps[|steps| - 1])
      case stopped => stopped
  }

  const FRESH := ServiceState(true, [])

  /** Adjacent stored headers are linked, except possibly the first pair. */
  predicate LinkedFromSecond(blocks: seq<Header>) {
    forall i :: 1 <= i < |blocks| - 1 ==> Follows(blocks[i + 1], blocks[i])
  }

  predicate Stored(blocks: seq<Header>) {
    Contiguous(blocks) && LinkedFromSecond(blocks)
  }

  /** Main result: while no fork is reported, stored headers are contiguous and hash-linked from the
      second on; when one is, that held of all of them but the newest. */
  lemma {:induction false} LinkInvariantOverEveryRun(steps: seq<BlockStep>)
    ensures match RunSteps(FRESH, steps)
      case Running(s) => Stored(s.blocks)
      case Stopped(blocks, _) => blocks != [] && Contiguous(blocks) && LinkedFromSecond(blocks[..|blocks| - 1])
  {
    if steps != [] {
      LinkInvariantOverEveryRun(steps[..|steps| - 1]);
      match RunSteps(FRESH, steps[..|steps| - 1]) {
        case Running(s) =>
          match steps[|steps| - 1] {
            case AppendAndCheck(header, chain) =>
              assert (s.blocks + [header])[..|s.blocks|] == s.blocks;
              AppendKeepsLinks(s.blocks, header);
            case Check(chain) =>
            case DropPrefix(count) =>
            case Restart =>
          }
        case Stopped(_, _) =>
      }
    }
  }

  lemma AppendKeepsLinks(blocks: seq<Header>, header: Header)
    requires LinkedFromSecond(blocks)
    ensures LinkVerdict(blocks + [header]).None? <==> LinkedFromSecond(blocks + [header])
  {
  }

  /** The exception is real: an unlinked first pair is never reported. */
  lemma FirstPairIsNotChecked()
    ensures exists steps, s :: RunSteps(FRESH, steps) == Running(s) && |s.blocks| == 2
                            && !Follows(s.blocks[1], s.blocks[0])
  {
    var a, b := Header(1, "a", "z"), Header(2, "b", "not a");
    var chain := Chain(map[], map[1 := a]);
    var first, second := AppendAndCheck(a, chain), AppendAndCheck(b, chain);
    assert [first, second][..1] == [first] && [first][..0] == [];
    assert [] + [a] == [a] && [a] + [b] == [a, b];
    assert RunSteps(FRESH, [first]) == Running(ServiceState(false, [a]));
    var s := ServiceState(false, [a, b]);
    assert RunSteps(FRESH, [first, second]) == Running(s);
    assert !Follows(s.blocks[1], s.blocks[0]);
  }

  // ---------- from runs to the walk ----------

  lemma {:induction false} BelowOfContiguous(blocks: seq<Header>, height: nat)
    requires Contiguous(blocks) && blocks != [] && blocks[|blocks| - 1].blockHeight == height
    ensures Below(blocks, height) == blocks[..|blocks| - 1]
    ensures ContiguousTo(blocks[..|blocks| - 1], height)
  {
    ContiguousFromTop(blocks);
    BelowKeepsLower(blocks[..|blocks| - 1], height);
  }

  lemma {:induction false} ContiguousFromTop(blocks: seq<Header>)
    requires Contiguous(blocks) && blocks != []
    ensures forall i :: 0 <= i < |blocks| ==>
      blocks[i].blockHeight + (|blocks| - 1 - i) == blocks[|blocks| - 1].blockHeight
  {
    if |blocks| > 1 {
      var front := blocks[..|blocks| - 1];
      assert Contiguous(front);
      ContiguousFromTop(front);
      assert blocks[|blocks| - 2 + 1].blockHeight == blocks[|blocks| - 2].blockHeight + 1;
    }
  }

  /** `filter`: the lower headers, all of them and in their order. */
  lemma {:induction false} BelowExactly(blocks: seq<Header>, more: seq<Header>, height: nat)
    ensures forall h :: h in Below(blocks, height) <==> h in blocks && h.blockHeight < height
    ensures Below(blocks + more, height) == Below(blocks, height) + Below(more, height)
  {
    if more != [] {
      BelowExactly(blocks, more[..|more| - 1], height);
      assert (blocks + more)[..|blocks + more| - 1] == blocks + more[..|more| - 1];
    } else {
      assert blocks + [] == blocks;
      if blocks != [] {
        BelowExactly(blocks[..|blocks| - 1], [], height);
      }
    }
  }

  lemma {:induction false} BelowKeepsLower(blocks: seq<Header>, height: nat)
    requires forall i :: 0 <= i < |blocks| ==> blocks[i].blockHeight < height
    ensures Below(blocks, height) == blocks
  {
    if blocks != [] {
      BelowKeepsLower(blocks[..|blocks| - 1], height);
    }
  }

  /** Served headers are found under their own height. */
  predicate ServesHeights(chain: Chain) {
    forall h :: h in chain.byHeight ==> chain.byHeight[h].blockHeight == h
  }

  // ---------- what a check reports ----------

  /** The header that a check must report: at startup the one that the node serves in place of the newest
      stored header; otherwise the newest stored header, when it does not follow its predecessor. */
  predicate Reports(chain: Chain, startupCheck: bool, blocks: seq<Header>, forked: Header) {
    && blocks != []
    && var newest := blocks[|blocks| - 1];
       if startupCheck && !OnServedChain(chain, newest) then
         forked.blockHash != newest.blockHash && newest.blockHeight in chain.byHeight
         && forked == chain.byHeight[newest.blockHeight]
       else
         |blocks| > 2 && forked == newest && !Follows(newest, blocks[|blocks| - 2])
  }

  /** Main result: a check reports exactly that header; it fails only at startup, when the node does not
      serve the newest stored height, and later checks do not ask the node at all. */
  lemma ForkIsReportedExactly(chain: Chain, startupCheck: bool, blocks: seq<Header>, forked: Header)
    ensures ForkVerdict(chain, startupCheck, blocks) == Ok(Some(forked))
       <==> Reports(chain, startupCheck, blocks, forked)
    ensures ForkVerdict(chain, startupCheck, blocks).Err?
       <==> startupCheck && blocks != [] && blocks[|blocks| - 1].blockHeight !in chain.byHeight
    ensures forall other :: ForkVerdict(other, false, blocks) == ForkVerdict(chain, false, blocks)
  {
  }

  /** A fork found at startup is reported as a header of the served chain, at the newest stored height. */
  lemma StartupForkIsServed(chain: Chain, blocks: seq<Header>, forked: Header)
    requires blocks != [] && ServesHeights(chain) && !OnServedChain(chain, blocks[|blocks| - 1])
    requires ForkVerdict(chain, true, blocks) == Ok(Some(forked))
    ensures OnServedChain(chain, forked) && forked.blockHeight == blocks[|blocks| - 1].blockHeight
  {
    ForkIsReportedExactly(chain, true, blocks, forked);
  }

  /** A reported fork is at the height of the newest stored header, so the walk starts just below it. */
  lemma {:induction false} ForkIsAtTheTop(chain: Chain, startupCheck: bool, blocks: seq<Header>, forked: Header)
    requires Contiguous(blocks) && ServesHeights(chain)
    requires ForkVerdict(chain, startupCheck, blocks) == Ok(Some(forked))
    ensures blocks != [] && Below(blocks, forked.blockHeight) == blocks[..|blocks| - 1]
    ensures ContiguousTo(blocks[..|blocks| - 1], forked.blockHeight)
  {
    BelowOfContiguous(blocks, forked.blockHeight);
  }

  /** A path of hash links, oldest header first. */
  predicate LinkPath(path: seq<Header>) {
    forall i :: 0 <= i < |path| - 1 ==> Follows(path[i + 1], path[i])
  }

  /** The path leads from `a` to `b` through headers that are stored, served or the forked one. */
  predicate Connects(chain: Chain, blocks: seq<Header>, forked: Header, path: seq<Header>, a: Header, b: Header) {
    && path != [] && path[0] == a && path[|path| - 1] == b && LinkPath(path)
    && forall i :: 0 <= i < |path| ==> Known(chain, blocks, forked, path[i])
  }

  ghost predicate LinksTo(chain: Chain, blocks: seq<Header>, forked: Header, a: Header, b: Header) {
    exists path :: Connects(chain, blocks, forked, path, a, b)
  }

  lemma LinksToStep(chain: Chain, blocks: seq<Header>, forked: Header, a: Header, b: Header, c: Header)
    requires LinksTo(chain, blocks, forked, a, b) && Follows(c, b) && Known(chain, blocks, forked, c)
    ensures LinksTo(chain, blocks, forked, a, c)
  {
    var path :| Connects(chain, blocks, forked, path, a, b);
    assert Connects(chain, blocks, forked, path + [c], a, c);
  }

  lemma LinksToItself(chain: Chain, blocks: seq<Header>, forked: Header, a: Header)
    requires Known(chain, blocks, forked, a)
    ensures LinksTo(chain, blocks, forked, a, a)
  {
    assert Connects(chain, blocks, forked, [a], a, a);
  }

  lemma {:induction false} LinksThroughUp(chain: Chain, blocks: seq<Header>, forked: Header, n: nat, x: Header)
    requires forall k :: k in chain.byHash ==> chain.byHash[k].blockHash == k
    requires Up(chain, forked, n).Some? && LinksTo(chain, blocks, forked, x, Up(chain, forked, n).value)
    ensures LinksTo(chain, blocks, forked, x, forked)
  {
    if n > 0 {
      var child := Up(chain, forked, n - 1).value;
      assert Known(chain, blocks, forked, child);
      LinksToStep(chain, blocks, forked, x, Up(chain, forked, n).value, child);
      LinksThroughUp(chain, blocks, forked, n - 1, x);
    }
  }

  lemma {:induction false} LinksThroughStored(chain: Chain, blocks: seq<Header>, forked: Header, j: nat, t: nat)
    requires LinkedFromSecond(blocks) && 1 <= j <= t < |blocks|
    ensures LinksTo(chain, blocks, forked, blocks[j], blocks[t])
    decreases t - j
  {
    if j == t {
      LinksToItself(chain, blocks, forked, blocks[j]);
    } else {
      LinksThroughStored(chain, blocks, forked, j, t - 1);
      assert Follows(blocks[t - 1 + 1], blocks[t - 1]);
      LinksToStep(chain, blocks, forked, blocks[j], blocks[t - 1], blocks[t]);
    }
  }

  lemma LinksThroughTarget(chain: Chain, best: seq<Header>, forked: Header, t: nat, j: nat)
    requires forall k :: k in chain.byHash ==> chain.byHash[k].blockHash == k
    requires LinkedFromSecond(best) && 1 <= j <= t < |best|
    requires OnChainOf(chain, forked, best[t])
    ensures LinksTo(chain, best, forked, best[j], forked)
  {
    var n: nat :| AncestorAt(chain, forked, n, best[t]);
    LinksThroughStored(chain, best, forked, j, t);
    LinksToStep(chain, best, forked, best[j], best[t], Up(chain, forked, n - 1).value);
    LinksThroughUp(chain, best, forked, n - 1, best[j]);
  }

  /** Paths to one header agree from its end, so far as both reach. */
  lemma {:induction false} PathsAgree(chain: Chain, blocks: seq<Header>, forked: Header, p: seq<Header>, q: seq<Header>,
                                      a: Header, b: Header, top: Header, k: nat)
    requires ConsistentHashes(chain, blocks, forked)
    requires Connects(chain, blocks, forked, p, a, top) && Connects(chain, blocks, forked, q, b, top)
    requires k < |p| && k < |q|
    ensures p[|p| - 1 - k] == q[|q| - 1 - k]
    ensures p[|p| - 1 - k].blockHeight + k == top.blockHeight
  {
    if k > 0 {
      PathsAgree(chain, blocks, forked, p, q, a, b, top, k - 1);
      assert Follows(p[|p| - 1 - k + 1], p[|p| - 1 - k]) && Follows(q[|q| - 1 - k + 1], q[|q| - 1 - k]);
    }
  }

  /** At each height one header at most is linked to the forked one: being linked is being on its chain. */
  lemma LinkedHeaderIsUnique(chain: Chain, blocks: seq<Header>, forked: Header, a: Header, b: Header)
    requires ConsistentHashes(chain, blocks, forked) && a.blockHeight == b.blockHeight
    requires LinksTo(chain, blocks, forked, a, forked) && LinksTo(chain, blocks, forked, b, forked)
    ensures a == b
  {
    var p :| Connects(chain, blocks, forked, p, a, forked);
    var q :| Connects(chain, blocks, forked, q, b, forked);
    PathsAgree(chain, blocks, forked, p, p, a, a, forked, |p| - 1);
    PathsAgree(chain, blocks, forked, q, q, b, b, forked, |q| - 1);
    PathsAgree(chain, blocks, forked, p, q, a, b, forked, |p| - 1);
  }

  /** Main result: every stored header from the second up to the rewind target is on the forked header's
      chain: linked to it through known headers, and the only one of its height that is. */
  lemma {:induction false} KeptHeadersAreOnTheForkedChain(chain: Chain, best: seq<Header>, forked: Header, t: nat,
                                                          j: nat)
    requires ConsistentHashes(chain, best, forked) && ContiguousTo(best, forked.blockHeight)
    requires forall k :: k in chain.byHash ==> chain.byHash[k].blockHash == k
    requires LinkedFromSecond(best) && 1 <= j <= t < |best|
    requires WalkBack(chain, best, forked) == Found(best[t])
    ensures LinksTo(chain, best, forked, best[j], forked)
    ensures forall x: Header :: x.blockHeight == best[j].blockHeight && LinksTo(chain, best, forked, x, forked) ==>
      x == best[j]
  {
    WalkFindsHighestCommonBlock(chain, best, forked);
    LinksThroughTarget(chain, best, forked, t, j);
    forall x: Header | x.blockHeight == best[j].blockHeight && LinksTo(chain, best, forked, x, forked)
      ensures x == best[j]
    {
      LinkedHeaderIsUnique(chain, best, forked, x, best[j]);
    }
  }

  // ---------- from a run to the rewind ----------

  predicate ChainsServeHeights(steps: seq<BlockStep>) {
    forall i :: 0 <= i < |steps| && (steps[i].AppendAndCheck? || steps[i].Check?) ==> ServesHeights(steps[i].chain)
  }

  predicate Checks(step: BlockStep) {
    step.AppendAndCheck? || step.Check?
  }

  /** Main result: a run stops at a check, and the fork it reports is the one that check must report. */
  lemma {:induction false} StopHasReason(steps: seq<BlockStep>, blocks: seq<Header>, forked: Header) returns (n: nat)
    requires RunSteps(FRESH, steps) == Stopped(blocks, Ok(Some(forked)))
    ensures n < |steps| && Checks(steps[n]) && RunSteps(FRESH, steps[..n]).Running?
    ensures Reports(steps[n].chain, RunSteps(FRESH, steps[..n]).state.startupCheck, blocks, forked)
  {
    var front, last := steps[..|steps| - 1], steps[|steps| - 1];
    match RunSteps(FRESH, front) {
      case Running(s) =>
        n := |front|;
        assert steps[..n] == front;
        ForkIsReportedExactly(last.chain, s.startupCheck, blocks, forked);
      case Stopped(_, _) =>
        n := StopHasReason(front, blocks, forked);
        assert steps[..n] == front[..n];
    }
  }

  /** The startup check is done by the first check after a start, and by no other before the next start. */
  lemma {:induction false} StartupCheckIsDoneOnce(steps: seq<BlockStep>, chain: Chain)
    ensures RunSteps(FRESH, steps).Running? ==>
      RunSteps(FRESH, steps + [Restart]) == Running(ServiceState(true, RunSteps(FRESH, steps).state.blocks))
    ensures RunSteps(FRESH, steps + [Check(chain)]).Running? ==>
      !RunSteps(FRESH, steps + [Check(chain)]).state.startupCheck
  {
    assert (steps + [Restart])[..|steps|] == steps;
    assert (steps + [Check(chain)])[..|steps|] == steps;
  }

  lemma StopIsAtTheTop(steps: seq<BlockStep>, blocks: seq<Header>, forked: Header)
    requires ChainsServeHeights(steps) && RunSteps(FRESH, steps) == Stopped(blocks, Ok(Some(forked)))
    ensures blocks != [] && forked.blockHeight == blocks[|blocks| - 1].blockHeight
  {
    var n := StopHasReason(steps, blocks, forked);
  }

  /** What rewinding achieves: the target is the highest stored header on the forked header's chain, and
      the stored headers below it, but the first, are on that chain too. */
  ghost predicate RewindsTo(chain: Chain, best: seq<Header>, forked: Header, t: nat) {
    && t < |best| && OnChainOf(chain, forked, best[t])
    && (forall i :: t < i < |best| ==> !OnChainOf(chain, forked, best[i]))
    && (forall j :: 1 <= j <= t ==> LinksTo(chain, best, forked, best[j], forked))
  }

  lemma WalkRewinds(chain: Chain, best: seq<Header>, forked: Header) returns (t: nat)
    requires ConsistentHashes(chain, best, forked) && ContiguousTo(best, forked.blockHeight) && LinkedFromSecond(best)
    requires forall k :: k in chain.byHash ==> chain.byHash[k].blockHash == k
    requires exists i :: 0 <= i < |best| && OnChainOf(chain, forked, best[i])
    ensures RewindsTo(chain, best, forked, t) && WalkBack(chain, best, forked) == Found(best[t])
  {
    WalkFindsHighestCommonBlock(chain, best, forked);
    assert forall i :: 0 <= i < |best| ==> best[i] in best;
    t :| t < |best| && best[t] == WalkBack(chain, best, forked).header;
    forall j | 1 <= j <= t
      ensures LinksTo(chain, best, forked, best[j], forked)
    {
      LinksThroughTarget(chain, best, forked, t, j);
    }
  }

  lemma {:induction false} NothingToRewindTo(chain: Chain, best: seq<Header>, forked: Header)
    requires ConsistentHashes(chain, best, forked) && ContiguousTo(best, forked.blockHeight)
    requires forall k :: k in chain.byHash ==> chain.byHash[k].blockHash == k
    requires forall i :: 0 <= i < |best| ==> !OnChainOf(chain, forked, best[i])
    ensures !WalkBack(chain, best, forked).Found?
  {
    WalkFindsHighestCommonBlock(chain, best, forked);
  }

  lemma {:induction false} StopLeavesContiguous(steps: seq<BlockStep>, blocks: seq<Header>, forked: Header)
    requires ChainsServeHeights(steps) && RunSteps(FRESH, steps) == Stopped(blocks, Ok(Some(forked)))
    ensures blocks != []
    ensures var best := blocks[..|blocks| - 1];
      Below(blocks, forked.blockHeight) == best && ContiguousTo(best, forked.blockHeight) && LinkedFromSecond(best)
  {
    StopIsAtTheTop(steps, blocks, forked);
    LinkInvariantOverEveryRun(steps);
    BelowOfContiguous(blocks, forked.blockHeight);
  }

  /** Main result, from any run to the rewind: when a run ends with a reported fork, the walk compares
      all stored headers but the newest; it rewinds to the highest of them on the forked header's chain,
      keeping only headers of that chain above the first, and falls back on POI only when there is none. */
  lemma {:induction false} RunThenRewind(steps: seq<BlockStep>, blocks: seq<Header>, forked: Header, chain: Chain,
                                         poi: Header -> PoiOutcome, reindex: nat)
    requires ChainsServeHeights(steps) && RunSteps(FRESH, steps) == Stopped(blocks, Ok(Some(forked)))
    requires blocks != [] && ConsistentHashes(chain, blocks[..|blocks| - 1], forked)
    requires forall k :: k in chain.byHash ==> chain.byHash[k].blockHash == k
    ensures var best, r := blocks[..|blocks| - 1], RewindFor(chain, blocks, forked, poi, reindex);
      if exists i :: 0 <= i < |best| && OnChainOf(chain, forked, best[i])
      then exists t: nat :: RewindsTo(chain, best, forked, t) && r == ToHeader(best[t])
      else
        match WalkBack(chain, best, forked)
        case Found(_) => false
        case Broken(error) => r == Failed(error) && exists k: nat :: k < |best| && BreaksAt(chain, forked, k, error)
        case Exhausted(checking) =>
          && Up(chain, forked, |best|) == Some(checking) && checking.blockHeight + |best| == forked.blockHeight
          && r == match poi(checking)
                  case PoiHeader(header) => ToHeader(header)
                  case PoiDisabled => ToHeight(Max(0, forked.blockHeight - reindex))
                  case PoiFailed(error) => Failed(error)
  {
    var best := blocks[..|blocks| - 1];
    StopLeavesContiguous(steps, blocks, forked);
    if exists i :: 0 <= i < |best| && OnChainOf(chain, forked, best[i]) {
      var t := WalkRewinds(chain, best, forked);
    } else {
      NothingToRewindTo(chain, best, forked);
      if WalkBack(chain, best, forked).Exhausted? {
        FallbackPosition(chain, blocks, forked, poi, reindex);
      }
      assert best[..|best| - 0] == best;
      if WalkBack(chain, best, forked).Broken? {
        BrokenWalk(chain, best, forked, 0);
      }
    }
  }

  /** Main result: when the first check after a start finds the newest stored header replaced, the fork is the
      header that the node serves at that height, and the rewind goes to the highest stored ancestor of that
      header, if there is one. */
  lemma StartupForkRewindsToServedChain(chain: Chain, blocks: seq<Header>, poi: Header -> PoiOutcome, reindex: nat)
    requires blocks != [] && Contiguous(blocks) && LinkedFromSecond(blocks[..|blocks| - 1])
    requires var newest := blocks[|blocks| - 1]; newest.blockHeight in chain.byHeight && !OnServedChain(chain, newest)
    requires ServesHeights(chain) && forall k :: k in chain.byHash ==> chain.byHash[k].blockHash == k
    requires ConsistentHashes(chain, blocks[..|blocks| - 1], chain.byHeight[blocks[|blocks| - 1].blockHeight])
    ensures var served, best := chain.byHeight[blocks[|blocks| - 1].blockHeight], blocks[..|blocks| - 1];
      && ForkVerdict(chain, true, blocks) == Ok(Some(served)) && OnServedChain(chain, served)
      && ((exists i :: 0 <= i < |best| && OnChainOf(chain, served, best[i])) ==>
            exists t: nat :: RewindsTo(chain, best, served, t)
                             && RewindFor(chain, blocks, served, poi, reindex) == ToHeader(best[t]))
  {
    var served, best := chain.byHeight[blocks[|blocks| - 1].blockHeight], blocks[..|blocks| - 1];
    ForkIsReportedExactly(chain, true, blocks, served);
    BelowOfContiguous(blocks, served.blockHeight);
    if exists i :: 0 <= i < |best| && OnChainOf(chain, served, best[i]) {
      var t := WalkRewinds(chain, best, served);
    }
  }

  // ---------- no false alarm ----------

  /** The step checks against a chain that serves the newest header, and an appended one follows its predecessor. */
  predicate HonestAfter(o: Outcome, step: BlockStep) {
    o.Running? ==>
      var blocks := o.state.blocks;
      match step
      case AppendAndCheck(header, chain) =>
        Contiguous(blocks + [header]) ==>
          OnServedChain(chain, header) && (blocks != [] ==> Follows(header, blocks[|blocks| - 1]))
      case Check(chain) => blocks != [] ==> OnServedChain(chain, blocks[|blocks| - 1])
      case _ => true
  }

  predicate HonestRun(steps: seq<BlockStep>) {
    forall n :: 0 <= n < |steps| ==> HonestAfter(RunSteps(FRESH, steps[..n]), steps[n])
  }

  /** No false alarm: a run in which every stored header is served at its check and follows its
      predecessor never stops, and links even the first pair. */
  lemma {:induction false} NoFalseAlarmOverEveryRun(steps: seq<BlockStep>)
    requires HonestRun(steps)
    ensures RunSteps(FRESH, steps).Running? && LinkPath(RunSteps(FRESH, steps).state.blocks)
  {
    if steps != [] {
      var front, n := steps[..|steps| - 1], |steps| - 1;
      forall k | 0 <= k < n
        ensures HonestAfter(RunSteps(FRESH, front[..k]), front[k])
      {
        assert front[..k] == steps[..k] && HonestAfter(RunSteps(FRESH, steps[..k]), steps[k]);
      }
      NoFalseAlarmOverEveryRun(front);
      var s := RunSteps(FRESH, front).state;
      assert HonestAfter(RunSteps(FRESH, steps[..n]), steps[n]);
      if steps[n].AppendAndCheck? && Contiguous(s.blocks + [steps[n].header]) {
        var all := s.blocks + [steps[n].header];
        forall i | 0 <= i < |all| - 1
          ensures Follows(all[i + 1], all[i])
        {
          assert i < |s.blocks| - 1 ==> Follows(s.blocks[i + 1], s.blocks[i]);
        }
        assert |all| > 2 ==> Follows(all[|all| - 2 + 1], all[|all| - 2]);
      } else if steps[n].Check? {
        assert |s.blocks| > 2 ==> Follows(s.blocks[|s.blocks| - 2 + 1], s.blocks[|s.blocks| - 2]);
      } else if steps[n].DropPrefix? {
        var count := Min(steps[n].count, |s.blocks|);
        forall i | 0 <= i < |s.blocks[count..]| - 1
          ensures Follows(s.blocks[count..][i + 1], s.blocks[count..][i])
        {
          assert Follows(s.blocks[count + i + 1], s.blocks[count + i]);
        }
      }
    }
  }

  // ---------- startup ----------

  /** The served chain is complete up to a height and linked. */
  predicate ServesLinkedChain(chain: Chain, top: nat) {
    && ServesHeights(chain)
    && (forall h: nat :: h <= top ==> h in chain.byHeight)
    && (forall h: nat :: 1 <= h <= top ==> Follows(chain.byHeight[h], chain.byHeight[h - 1]))
  }

  predicate OnServedChain(chain: Chain, header: Header) {
    header.blockHeight in chain.byHeight && chain.byHeight[header.blockHeight].blockHash == header.blockHash
  }

  lemma {:induction false} ServedDownTo(chain: Chain, blocks: seq<Header>, i: nat)
    requires Stored(blocks) && i < |blocks| && (i >= 1 || |blocks| == 1)
    requires ServesLinkedChain(chain, blocks[|blocks| - 1].blockHeight)
    requires forall x, y :: x in blocks && y in chain.byHeight.Values && x.blockHash == y.blockHash ==> x == y
    requires OnServedChain(chain, blocks[|blocks| - 1])
    ensures OnServedChain(chain, blocks[i])
    decreases |blocks| - i
  {
    if i < |blocks| - 1 {
      ServedDownTo(chain, blocks, i + 1);
      ContiguousFromTop(blocks);
      var child, h := blocks[i + 1], blocks[i + 1].blockHeight;
      assert child in blocks && chain.byHeight[h] in chain.byHeight.Values;
      assert child == chain.byHeight[h];
      assert Follows(child, blocks[i]);
      assert Follows(chain.byHeight[h], chain.byHeight[h - 1]);
    }
  }

  /** Main result: if the first check after a start reports nothing, every stored header from the
      second on, and a sole one, is on the chain the node now serves. */
  lemma StartupSoundness(chain: Chain, blocks: seq<Header>, i: nat)
    requires Stored(blocks) && i < |blocks| && (i >= 1 || |blocks| == 1)
    requires ServesLinkedChain(chain, blocks[|blocks| - 1].blockHeight)
    requires forall x, y :: x in blocks && y in chain.byHeight.Values && x.blockHash == y.blockHash ==> x == y
    requires ForkVerdict(chain, true, blocks) == Ok(None)
    ensures OnServedChain(chain, blocks[i])
  {
    ServedDownTo(chain, blocks, i);
  }
}
