/**
 Chains of disk overlays: the backing links stored in the files, restoring them, and walking them.

 Paths stand for resolved file identities.  `links` maps every existing qcow2 file to its backing
 link; `qemu-img` fails on any other path.
 */
module OverlayChain {
  import opened Sequences
  import opened Wrappers

  datatype Path = Path(dir: string, name: string)

  type Links = map<Path, Option<Path>>

  /** The overlay below position `i`, which for the lowest is the base image. */
  function Below(chain: seq<Path>, base: Path, i: nat): Path
    requires i < |chain|
  {
    if i == 0 then base else chain[i - 1]
  }

  /**
   Walking down from the top visits exactly `chain`, bottom to top, and stops there: at the base
   image, or at a file that has no backing.
   */
  ghost predicate IsChain(links: Links, chain: seq<Path>, base: Path) {
    && chain != []
    && (forall i :: 0 <= i < |chain| ==> chain[i] in links)
    && (links[chain[0]] == None || links[chain[0]] == Some(base))
    && (forall i :: 1 <= i < |chain| ==> links[chain[i]] == Some(chain[i - 1]))
    && (forall i :: 0 <= i < |chain| - 1 ==> chain[i] != base)
  }

  /** A walk that ends cannot pass the same file twice. */
  lemma {:induction false} ChainsAreDistinct(links: Links, chain: seq<Path>, base: Path, i: nat, j: nat)
    requires IsChain(links, chain, base) && i < j < |chain|
    ensures chain[i] != chain[j]
  {
    if i > 0 {
      ChainsAreDistinct(links, chain, base, i - 1, j - 1);
    } else {
      assert links[chain[j]] == Some(chain[j - 1]);
    }
  }

  /** Each overlay's link set to the one below it; when a file occurs twice the higher place wins. */
  function Relinked(links: Links, chain: seq<Path>, base: Path): Links
  {
    if chain == [] then links
    else
      var n := |chain| - 1;
      Relinked(links, chain[..n], base)[chain[n] := Some(Below(chain, base, n))]
  }

  lemma {:induction false} RelinkedElsewhere(links: Links, chain: seq<Path>, base: Path, p: Path)
    requires p !in chain
    ensures p in Relinked(links, chain, base) <==> p in links
    ensures p in links ==> Relinked(links, chain, base)[p] == links[p]
  {
    if chain != [] {
      RelinkedElsewhere(links, chain[..|chain| - 1], base, p);
    }
  }

  lemma {:induction false} RelinkedHere(links: Links, chain: seq<Path>, base: Path, i: nat)
    requires Distinct(chain) && i < |chain|
    ensures chain[i] in Relinked(links, chain, base)
    ensures Relinked(links, chain, base)[chain[i]] == Some(Below(chain, base, i))
  {
    var n := |chain| - 1;
    if i < n {
      RelinkedHere(links, chain[..n], base, i);
    }
  }

  /** The links after a fresh overlay has been put on top of a restored chain. */
  function Restored(links: Links, chain: seq<Path>, base: Path, overlay: Path): Links
    requires chain != []
  {
    Relinked(links, chain, base)[overlay := Some(chain[|chain| - 1])]
  }

  /**
   Restoring repairs any links whatever, cyclic ones included: afterwards the walk from the new
   overlay ends and yields the chain with the overlay on top, exactly when the files are distinct
   and the base is not among the chain's.
   */
  lemma RestoreRepairs(links: Links, chain: seq<Path>, base: Path, overlay: Path)
    requires chain != []
    ensures IsChain(Restored(links, chain, base, overlay), chain + [overlay], base)
            <==> Distinct(chain + [overlay]) && base !in chain
  {
    if Distinct(chain + [overlay]) && base !in chain {
      RestoredIsChain(links, chain, base, overlay);
    }
    if IsChain(Restored(links, chain, base, overlay), chain + [overlay], base) {
      ChainIsDistinct(Restored(links, chain, base, overlay), chain + [overlay], base);
      assert forall i :: 0 <= i < |chain| ==> (chain + [overlay])[i] == chain[i];
    }
  }

  lemma ChainIsDistinct(links: Links, chain: seq<Path>, base: Path)
    requires IsChain(links, chain, base)
    ensures Distinct(chain)
  {
    forall i, j | 0 <= i < j < |chain| ensures chain[i] != chain[j] {
      ChainsAreDistinct(links, chain, base, i, j);
    }
  }

  lemma RestoredIsChain(links: Links, chain: seq<Path>, base: Path, overlay: Path)
    requires chain != [] && Distinct(chain + [overlay]) && base !in chain
    ensures IsChain(Restored(links, chain, base, overlay), chain + [overlay], base)
  {
    var links', whole := Restored(links, chain, base, overlay), chain + [overlay];
    forall i, j | 0 <= i < j < |chain| ensures chain[i] != chain[j] {
      assert whole[i] != whole[j];
    }
    forall i | 0 <= i < |chain|
      ensures chain[i] in links' && links'[chain[i]] == Some(Below(chain, base, i))
    {
      RelinkedHere(links, chain, base, i);
      assert whole[i] != whole[|chain|];
    }
    hide Restored, Relinked, Distinct;
    LinkedIsChain(links', chain, base, overlay);
  }

  lemma LinkedIsChain(links: Links, chain: seq<Path>, base: Path, overlay: Path)
    requires chain != [] && base !in chain && overlay in links && links[overlay] == Some(chain[|chain| - 1])
    requires forall i :: 0 <= i < |chain| ==> chain[i] in links && links[chain[i]] == Some(Below(chain, base, i))
    ensures IsChain(links, chain + [overlay], base)
  {
    var whole := chain + [overlay];
    forall i | 0 <= i < |whole|
      ensures whole[i] in links && links[whole[i]] == Some(if i == 0 then base else whole[i - 1])
      ensures i < |chain| ==> whole[i] != base
    {
      assert i < |chain| ==> whole[i] == chain[i] && chain[i] in chain;
    }
  }

  /** How a walk down the backing links ends; `Endless` when it goes round in a circle. */
  datatype Walk = Chain(files: seq<Path>) | MissingFile | Endless

  /** A walk from `top` that has passed `visited`, listed bottom to top, and is now at `current`. */
  ghost predicate Walked(links: Links, top: Path, base: Path, visited: seq<Path>, current: Path) {
    if visited == [] then current == top
    else
      && visited[0] in links && links[visited[0]] == Some(current) && current != base
      && Walked(links, top, base, visited[1..], visited[0])
  }

  /** Every chain from the same top contains what the walk has passed, and goes on where the walk is. */
  lemma {:induction false} WalkFollowsChain(links: Links, top: Path, base: Path, visited: seq<Path>, current: Path,
                                            chain: seq<Path>)
    requires Walked(links, top, base, visited, current)
    requires IsChain(links, chain, base) && chain[|chain| - 1] == top
    ensures var k := |chain| - |visited| - 1;
            k >= 0 && chain[k] == current && chain[k + 1..] == visited
  {
    if visited != [] {
      WalkFollowsChain(links, top, base, visited[1..], visited[0], chain);
      var k := |chain| - |visited|;
      assert chain[k] == visited[0];
      assert k > 0 ==> links[chain[k]] == Some(chain[k - 1]);
      assert chain[k..] == [chain[k]] + chain[k + 1..];
    }
  }

  /** What a walk has passed, with where it is, is the upper part of a chain. */
  lemma {:induction false} WalkEndsInChain(links: Links, top: Path, base: Path, visited: seq<Path>, current: Path)
    requires Walked(links, top, base, visited, current)
    requires current in links && links[current] in {None, Some(base)}
    ensures IsChain(links, [current] + visited, base) && ([current] + visited)[|visited|] == top
  {
    var chain := [current] + visited;
    forall i | 0 <= i < |visited|
      ensures visited[i] in links && links[visited[i]] == Some(chain[i]) && chain[i] != base
    {
      WalkedAt(links, top, base, visited, current, i);
    }
    forall i | 0 <= i < |chain| ensures chain[i] in links {
      assert i > 0 ==> chain[i] == visited[i - 1];
    }
    forall i | 1 <= i < |chain| ensures links[chain[i]] == Some(chain[i - 1]) {
      assert chain[i] == visited[i - 1];
    }
    TopOfWalk(links, top, base, visited, current);
  }

  lemma {:induction false} WalkedAt(links: Links, top: Path, base: Path, visited: seq<Path>, current: Path, i: nat)
    requires Walked(links, top, base, visited, current) && i < |visited|
    ensures var chain := [current] + visited;
            visited[i] in links && links[visited[i]] == Some(chain[i]) && chain[i] != base
  {
    if i > 0 {
      WalkedAt(links, top, base, visited[1..], visited[0], i - 1);
      assert [visited[0]] + visited[1..] == visited;
    }
  }

  lemma {:induction false} TopOfWalk(links: Links, top: Path, base: Path, visited: seq<Path>, current: Path)
    requires Walked(links, top, base, visited, current)
    ensures ([current] + visited)[|visited|] == top
  {
    if visited != [] {
      TopOfWalk(links, top, base, visited[1..], visited[0]);
      assert [visited[0]] + visited[1..] == visited;
    }
  }

  /** A walk that has passed as many files as there are, and is at yet another, has been somewhere twice. */
  lemma LongWalkRepeats(links: Links, top: Path, base: Path, visited: seq<Path>, current: Path)
    requires Walked(links, top, base, visited, current) && current in links && |visited| >= |links|
    ensures !Distinct([current] + visited)
  {
    var chain := [current] + visited;
    forall i | 0 <= i < |visited| ensures visited[i] in links {
      WalkedAt(links, top, base, visited, current, i);
    }
    if Distinct(chain) {
      DistinctFitsIn(chain, links.Keys);
    }
  }

  lemma NoChainPast(links: Links, top: Path, base: Path, visited: seq<Path>, current: Path)
    requires Walked(links, top, base, visited, current)
    requires current !in links || |visited| >= |links|
    ensures !exists chain :: IsChain(links, chain, base) && chain[|chain| - 1] == top
  {
    forall chain | IsChain(links, chain, base) ensures chain[|chain| - 1] != top {
      if chain[|chain| - 1] == top {
        WalkFollowsChain(links, top, base, visited, current, chain);
        ChainIsDistinct(links, chain, base);
        DistinctFitsIn(chain, links.Keys);
        assert false;
      }
    }
  }

  /** From one top there is at most one chain. */
  lemma ChainIsUnique(links: Links, a: seq<Path>, b: seq<Path>, base: Path)
    requires IsChain(links, a, base) && IsChain(links, b, base) && a[|a| - 1] == b[|b| - 1]
    ensures a == b
  {
    if |a| <= |b| {
      ChainsAgree(links, a, b, base, |a| - 1);
    } else {
      ChainsAgree(links, b, a, base, |b| - 1);
    }
  }

  /** Down from a common top the shorter chain is the upper part of the longer one, which cannot go on below it. */
  lemma {:induction false} ChainsAgree(links: Links, a: seq<Path>, b: seq<Path>, base: Path, n: nat)
    requires IsChain(links, a, base) && IsChain(links, b, base) && a[|a| - 1] == b[|b| - 1]
    requires n < |a| <= |b|
    ensures forall i :: |a| - 1 - n <= i < |a| ==> a[i] == b[|b| - |a| + i]
    ensures n == |a| - 1 ==> |a| == |b| && a == b
  {
    if n > 0 {
      ChainsAgree(links, a, b, base, n - 1);
      var i := |a| - n;
      assert links[a[i]] == Some(a[i - 1]) && links[b[|b| - |a| + i]] == Some(b[|b| - |a| + i - 1]);
    }
    var k := |b| - |a|;
    assert k > 0 ==> links[b[k]] == Some(b[k - 1]) && b[k - 1] != base;
  }

  class OverlayManager {
    var links: Links

    constructor (links: Links)
      ensures this.links == links
    {
      this.links := links;
    }

    /** `qemu-img info`; the outer option is the command's failure on a missing file. */
    method GetBackingFile(overlay: Path) returns (r: Option<Option<Path>>)
      ensures r == if overlay in links then Some(links[overlay]) else None
    {
      if overlay in links {
        return Some(links[overlay]);
      }
      return None;
    }

    /**
     The walk.  It returns exactly when the links lead from the top down to the base image or to a
     file without backing, and then the files on the way.  Otherwise it comes to a file that is not
     there, or goes round in a circle; the source then loops for ever, which the first file met again
     stands for.
     */
    method GetOverlayChain(top: Path, base: Path) returns (walk: Walk)
      ensures walk.Chain? <==> exists chain :: IsChain(links, chain, base) && chain[|chain| - 1] == top
      ensures walk.Chain? ==> IsChain(links, walk.files, base) && walk.files[|walk.files| - 1] == top
      ensures walk.MissingFile? ==>
                exists visited, current :: Walked(links, top, base, visited, current) && current !in links
      ensures walk.Endless? ==>
                exists visited, current :: Walked(links, top, base, visited, current) && !Distinct([current] + visited)
    {
      var chain: seq<Path> := [];
      var current := top;
      while true
        invariant Walked(links, top, base, chain, current)
        decreases |links| - |chain|
      {
        var backing := GetBackingFile(current);
        if backing.None? {
          NoChainPast(links, top, base, chain, current);
          return MissingFile;
        }
        if |chain| >= |links| {
          LongWalkRepeats(links, top, base, chain, current);
          NoChainPast(links, top, base, chain, current);
          return Endless;
        }
        if backing.value.None? || backing.value.value == base {
          WalkEndsInChain(links, top, base, chain, current);
          return Chain([current] + chain);
        }
        assert ([current] + chain)[1..] == chain;
        chain := [current] + chain;
        current := backing.value.value;
      }
    }

    method PrepareRestoredChain(chain: seq<Path>, base: Path) returns (ok: bool)
      modifies this
      ensures ok <==> forall p :: p in chain ==> p in old(links)
      ensures ok ==> links == Relinked(old(links), chain, base)
      ensures links.Keys == old(links.Keys)
      ensures forall p :: p in links && p !in chain ==> links[p] == old(links)[p]
    {
      assert chain[..0] == [];
      for i := 0 to |chain|
        invariant forall p :: p in chain[..i] ==> p in old(links)
        invariant links == Relinked(old(links), chain[..i], base) && links.Keys == old(links.Keys)
        invariant forall p :: p in links && p !in chain[..i] ==> links[p] == old(links)[p]
      {
        var overlay := chain[i];
        var expectedBacking := if i == 0 then base else chain[i - 1];
        var currentBacking := GetBackingFile(overlay);
        if currentBacking.None? {
          return false;
        }
        assert chain[..i + 1][..i] == chain[..i];
        assert chain[..i + 1] == chain[..i] + [overlay];
        if currentBacking.value == Some(expectedBacking) {
          assert links[overlay := Some(expectedBacking)] == links;
          continue;
        }
        links := links[overlay := Some(expectedBacking)];
      }
      assert chain[..|chain|] == chain;
      return true;
    }

    /** An empty restore chain is the same as none; a base image that is missing fails the creation. */
    method CreateOverlay(image: Path, overlay: Path, restoreChain: seq<Path>) returns (ok: bool)
      modifies this
      ensures ok <==> image in old(links) && forall p :: p in restoreChain ==> p in old(links)
      ensures ok && restoreChain == [] ==> links == old(links)[overlay := Some(image)]
      ensures ok && restoreChain != [] ==> links == Restored(old(links), restoreChain, image, overlay)
      ensures forall p :: p in old(links) && p !in restoreChain && p != overlay ==>
                p in links && links[p] == old(links)[p]
      ensures ok && Distinct(restoreChain + [overlay]) && image !in restoreChain
              ==> IsChain(links, restoreChain + [overlay], image)
    {
      if restoreChain != [] {
        ok := PrepareRestoredChain(restoreChain, image);
        if !ok {
          return false;
        }
        if image !in links {
          return false;
        }
        var backing := restoreChain[|restoreChain| - 1];
        links := links[overlay := Some(backing)];
        RestoreRepairs(old(links), restoreChain, image, overlay);
        return true;
      }
      if image !in links {
        return false;
      }
      links := links[overlay := Some(image)];
      return true;
    }
  }
}
