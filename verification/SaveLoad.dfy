/**
 A sandbox session on a chain of disk layers: guest writes, checkpoints, reverts, hot saves, and
 the sandbox that a save loads into.

 The host file system is a map of qcow2 files.  Monitor commands and `qemu-img` succeed on files
 that exist.
 */
module SaveLoad {
  import opened OverlayChain
  import opened SaveOrder
  import opened Sequences
  import opened Wrappers

  datatype Result<T> = Ok(value: T) | Err(error: Error)

  datatype Error = ActiveCheckpoints | NewerVersion | NoOverlays | BaseNotInstalled

  /** The machine's RAM; only its identity matters. */
  type Ram = int

  /** An internal qcow2 snapshot, as `savevm` leaves it in the active overlay. */
  datatype Snapshot = Snapshot(ram: Ram, data: Layer)

  datatype File = File(data: Layer, backing: Option<Path>, snapshots: map<string, Snapshot>)

  type Files = map<Path, File>

  /** `chain[0]` is the base image, the rest overlays bottom to top. */
  datatype Image = Image(name: string, chain: seq<Path>)

  datatype Saved = Saved(version: nat, image: string, overlays: map<string, Layer>)

  const SAVE_VERSION: nat := 6

  function LinksOf(files: Files): Links {
    map p | p in files :: files[p].backing
  }

  /** The files after `qemu-img` has changed their links and created the ones that are new. */
  function WithLinks(files: Files, links: Links): Files {
    map p | p in links :: if p in files then files[p].(backing := links[p]) else File(map[], links[p], map[])
  }

  function Layers(files: Files, paths: seq<Path>): (layers: seq<Layer>)
    requires forall p :: p in paths ==> p in files
    ensures |layers| == |paths|
  {
    seq(|paths|, i requires 0 <= i < |paths| => files[paths[i]].data)
  }

  /** Each file of the chain backs the next one; no file occurs twice. */
  ghost predicate Linked(files: Files, paths: seq<Path>) {
    && Distinct(paths)
    && (forall p :: p in paths ==> p in files)
    && (forall i :: 1 <= i < |paths| ==> files[paths[i]].backing == Some(paths[i - 1]))
  }

  // ---------------------------------------------------------------------------------------------
  // What qemu-img sees through a file
  // ---------------------------------------------------------------------------------------------

  /** The layers that a file shows, found by following at most `fuel` links. */
  function View(files: Files, top: Path, fuel: nat): seq<Layer>
    decreases fuel
  {
    if fuel == 0 || top !in files then []
    else match files[top].backing
      case None => [files[top].data]
      case Some(below) => View(files, below, fuel - 1) + [files[top].data]
  }

  lemma {:induction false} ViewOfChain(files: Files, paths: seq<Path>, i: nat, fuel: nat)
    requires Linked(files, paths) && i < |paths| && i < fuel
    requires files[paths[0]].backing == None
    ensures View(files, paths[i], fuel) == Layers(files, paths[..i + 1])
  {
    if i > 0 {
      ViewOfChain(files, paths, i - 1, fuel - 1);
      assert Layers(files, paths[..i + 1]) == Layers(files, paths[..i]) + [files[paths[i]].data];
    }
  }

  // ---------------------------------------------------------------------------------------------
  // Writing a save
  // ---------------------------------------------------------------------------------------------

  /**
   `qemu-img convert -c -B` as a parameter: for a layer and the layers that the backing shows, what it
   writes.  No two layers of one save have the same stack below them, so each has an answer of its own.
   */
  type Converter = convert: (Layer, seq<Layer>) -> Layer |
      forall data, below :: Packs(convert(data, below), data, below)
    witness (data, below) => data

  /** What a save may store of the session's layers, given the layers of the image below them. */
  ghost predicate Stores(own: seq<Layer>, below: seq<Layer>, session: seq<Layer>, compress: bool) {
    if compress then PacksStack(own, below, session) else own == session
  }

  /** What a save does store of them, with `convert` for the tool. */
  function Stored(below: seq<Layer>, session: seq<Layer>, compress: bool, convert: Converter): seq<Layer> {
    if compress then seq(|session|, i requires 0 <= i < |session| => convert(session[i], below + session[..i]))
    else session
  }

  lemma StoredStores(below: seq<Layer>, session: seq<Layer>, compress: bool, convert: Converter)
    ensures Stores(Stored(below, session, compress, convert), below, session, compress)
  {
  }

  lemma StoredKeepsDisk(own: seq<Layer>, below: seq<Layer>, session: seq<Layer>, compress: bool)
    requires Stores(own, below, session, compress)
    ensures |own| == |session| && SameDisk(below + own, below + session)
  {
    if compress {
      PackedStackKeepsDisk(own, below, session);
    }
  }

  function Converted(files: Files, src: Path, backing: Path, convert: Converter): Layer
    requires src in files
  {
    convert(files[src].data, View(files, backing, |files|))
  }

  /** `SaveWriter.write`: the numbered copies, compressed against the parallel backing list. */
  method Write(files: Files, chain: seq<Path>, compress: bool, convert: Converter, backingFiles: seq<Path>,
               ghost below: seq<Path>)
    returns (overlays: map<string, Layer>)
    requires Linked(files, below + chain) && below != [] && files[below[0]].backing == None
    requires |backingFiles| == |chain|
    requires forall i :: 0 <= i < |chain| ==> files[chain[i]].backing == Some(backingFiles[i])
    ensures overlays == SavedAs(Stored(Layers(files, below), Layers(files, chain), compress, convert))
  {
    overlays := map[];
    ghost var lower, layers := Layers(files, below), Layers(files, chain);
    hide SavedAs, Stored, Layers, Linked, Converted;
    NothingStored(lower, layers, compress, convert);
    for i := 0 to |chain|
      invariant overlays == SavedAs(Stored(lower, layers[..i], compress, convert))
    {
      var packed := files[chain[i]].data;
      if compress {
        packed := Converted(files, chain[i], backingFiles[i], convert);
      }
      StoredOneMore(files, below, chain, i, compress, convert);
      overlays := overlays[Name(i) := packed];
    }
    assert layers[..|chain|] == layers;
  }

  lemma NothingStored(lower: seq<Layer>, layers: seq<Layer>, compress: bool, convert: Converter)
    ensures SavedAs(Stored(lower, layers[..0], compress, convert)) == map[]
  {
  }

  /** Layer `i` goes under its number, compressed against the file that backs it if asked. */
  lemma StoredOneMore(files: Files, below: seq<Path>, chain: seq<Path>, i: nat, compress: bool, convert: Converter)
    requires Linked(files, below + chain) && below != [] && files[below[0]].backing == None && i < |chain|
    requires forall p :: p in below + chain ==> p in files
    ensures files[chain[i]].backing.Some?
    ensures var lower, layers, file := Layers(files, below), Layers(files, chain), files[chain[i]];
            var packed := if compress then Converted(files, chain[i], file.backing.value, convert) else file.data;
            SavedAs(Stored(lower, layers[..i + 1], compress, convert))
            == SavedAs(Stored(lower, layers[..i], compress, convert))[Name(i) := packed]
  {
    ConvertedAgainstTrueBacking(files, below, chain, i, convert);
    var lower, layers := Layers(files, below), Layers(files, chain);
    hide Linked, Converted;
    var own := Stored(lower, layers[..i + 1], compress, convert);
    assert forall k :: 0 <= k <= i ==> layers[..i + 1][..k] == layers[..k];
    assert forall k :: 0 <= k <= i ==> layers[..i][..k] == layers[..k];
    assert own[..i] == Stored(lower, layers[..i], compress, convert);
  }

  /** The backing that the list names is the stack below the layer. */
  lemma ConvertedAgainstTrueBacking(files: Files, below: seq<Path>, chain: seq<Path>, i: nat, convert: Converter)
    requires Linked(files, below + chain) && below != [] && files[below[0]].backing == None
    requires i < |chain| && forall p :: p in below + chain ==> p in files
    ensures files[chain[i]].backing.Some?
    ensures Converted(files, chain[i], files[chain[i]].backing.value, convert)
            == convert(files[chain[i]].data, Layers(files, below) + Layers(files, chain)[..i])
  {
    var whole, at := below + chain, |below| + i;
    assert whole[at] == chain[i];
    DistinctFitsIn(whole, files.Keys);
    ViewOfChain(files, whole, at - 1, |files|);
    assert Layers(files, whole[..at]) == Layers(files, below) + Layers(files, chain)[..i];
  }

  /** Of the chain's overlays those in the session's directory, each with the file below it. */
  method Collect(fullChain: seq<Path>, base: Path, tempDir: string, ghost below: seq<Path>, ghost session: seq<Path>)
    returns (chain: seq<Path>, backingFiles: seq<Path>)
    requires fullChain == below + session
    requires forall p :: p in below ==> p.dir != tempDir
    requires forall p :: p in session ==> p.dir == tempDir
    ensures chain == session && |backingFiles| == |session|
    ensures forall i :: 0 <= i < |session| ==> backingFiles[i] == ([base] + fullChain)[|below| + i]
  {
    chain, backingFiles := [], [];
    var prev := base;
    for i := 0 to |fullChain|
      invariant prev == ([base] + fullChain)[i]
      invariant i <= |below| ==> chain == []
      invariant i > |below| ==> chain == session[..i - |below|]
      invariant |backingFiles| == |chain|
      invariant forall j :: 0 <= j < |chain| ==> backingFiles[j] == ([base] + fullChain)[|below| + j]
    {
      var p := fullChain[i];
      assert i < |below| ==> p in below;
      assert i >= |below| ==> p == session[i - |below|];
      if p.dir == tempDir {
        chain := chain + [p];
        backingFiles := backingFiles + [prev];
      }
      prev := p;
    }
  }

  // ---------------------------------------------------------------------------------------------
  // Loading a save
  // ---------------------------------------------------------------------------------------------

  function SavedPaths(saveDir: string, names: seq<string>): seq<Path> {
    seq(|names|, i requires 0 <= i < |names| => Path(saveDir, names[i]))
  }

  /** The chain of the named package, then the save's own files in sorted order. */
  function Resolve(saved: Saved, saveDir: string, listing: seq<string>, packages: map<string, seq<Path>>)
    : Result<Image>
  {
    if saved.version > SAVE_VERSION then Err(NewerVersion)
    else if listing == [] then Err(NoOverlays)
    else if saved.image !in packages then Err(BaseNotInstalled)
    else Ok(Image(saved.image, packages[saved.image] + SavedPaths(saveDir, Sort(listing))))
  }

  /** Saves of this version and of any earlier one are taken, newer ones refused. */
  lemma ResolvesExactly(saved: Saved, saveDir: string, listing: seq<string>, packages: map<string, seq<Path>>)
    ensures var r := Resolve(saved, saveDir, listing, packages);
            && (r.Ok? <==> saved.version <= 6 && listing != [] && saved.image in packages)
            && (r == Err(NewerVersion) <==> saved.version > 6)
            && (r == Err(NoOverlays) <==> saved.version <= 6 && listing == [])
            && (r == Err(BaseNotInstalled) <==> saved.version <= 6 && listing != [] && saved.image !in packages)
  {
  }

  /** A save, of this version or an earlier one, of the image called `name` with these layers. */
  predicate SaveOf(saved: Saved, name: string, own: seq<Layer>) {
    saved.version <= SAVE_VERSION && saved.image == name && saved.overlays == SavedAs(own)
  }

  /** The save directory holds exactly the save's files; what their links say does not matter. */
  ghost predicate OnDisk(files: Files, saveDir: string, overlays: map<string, Layer>) {
    forall x :: x in overlays ==> Path(saveDir, x) in files && files[Path(saveDir, x)].data == overlays[x]
  }

  lemma LoadedLayers(files: Files, saveDir: string, overlays: map<string, Layer>, listing: seq<string>)
    requires Lists(listing, overlays) && OnDisk(files, saveDir, overlays)
    ensures forall p :: p in SavedPaths(saveDir, Sort(listing)) ==> p in files
    ensures Layers(files, SavedPaths(saveDir, Sort(listing))) == Loaded(overlays, listing)
    ensures Distinct(SavedPaths(saveDir, Sort(listing)))
  {
    SortSorts(listing);
    var names := Sort(listing);
    forall i | 0 <= i < |names| ensures names[i] in overlays {
      assert names[i] in names;
    }
    forall i, j | 0 <= i < j < |names| ensures names[i] != names[j] {
      assert Less(names[i], names[j]);
      LessIsTotal(names[i], names[i]);
    }
  }

  /**
   What a save resolves to: the named package's chain, and on it the stored layers in order.  The
   session's own image may have had more below it than that package.
   */
  lemma ResolvedLayers(name: string, package: seq<Path>, own: seq<Layer>, saved: Saved, files: Files, saveDir: string,
                       listing: seq<string>, packages: map<string, seq<Path>>)
    requires 1 <= |own| <= 10 && SaveOf(saved, name, own)
    requires name in packages && packages[name] == package && forall p :: p in package ==> p in files
    requires Lists(listing, saved.overlays) && OnDisk(files, saveDir, saved.overlays)
    ensures var r := Resolve(saved, saveDir, listing, packages);
            && r == Ok(Image(name, package + SavedPaths(saveDir, Sort(listing))))
            && (forall p :: p in r.value.chain ==> p in files)
            && Layers(files, r.value.chain) == Layers(files, package) + own
  {
    hide SavedAs, Sort, Loaded;
    LoadedInOrder(own, listing);
    LoadedLayers(files, saveDir, saved.overlays, listing);
    assert listing != [] by {
      SavedAsMeaning(own);
      assert Name(0) in saved.overlays;
    }
    var paths := SavedPaths(saveDir, Sort(listing));
    assert Layers(files, package + paths) == Layers(files, package) + own;
  }

  ghost predicate Holds(layers: seq<Layer>, at: nat) {
    exists k :: 0 <= k < |layers| && at in layers[k]
  }

  /** The layers left behind did not change what the package shows. */
  ghost predicate NothingLost(package: seq<Layer>, earlier: seq<Layer>, at: nat) {
    Read(package + earlier, at) == Read(package, at)
  }

  lemma SectorSurvives(package: seq<Layer>, earlier: seq<Layer>, session: seq<Layer>, compress: bool, own: seq<Layer>,
                       at: nat)
    requires Stores(own, package + earlier, session, compress)
    ensures Read(package + own, at) == Read(package + earlier + session, at)
            <==> Holds(own, at) || NothingLost(package, earlier, at)
  {
    StoredKeepsDisk(own, package + earlier, session, compress);
    assert Read(package + earlier + own, at) == Read(package + earlier + session, at);
    ReadAppend(package, own, at);
    ReadAppend(package + earlier, own, at);
  }

  lemma SameDiskExactlyWhereNothingLostShows(package: seq<Layer>, earlier: seq<Layer>, session: seq<Layer>,
                                             compress: bool, own: seq<Layer>)
    requires Stores(own, package + earlier, session, compress)
    ensures SameDisk(package + own, package + earlier + session)
            <==> forall at :: Holds(own, at) || NothingLost(package, earlier, at)
  {
    forall at: nat
      ensures Read(package + own, at) == Read(package + earlier + session, at)
              <==> Holds(own, at) || NothingLost(package, earlier, at)
    {
      SectorSurvives(package, earlier, session, compress, own, at);
    }
    hide Stores, Read, Holds, NothingLost;
  }

  /**
   A session on more than the package that its image is named after, one booted from a save above
   all: its next save brings back the disk if and only if at every sector either a stored layer
   holds it, or the layers that are left behind did not change what the package shows.
   */
  lemma ResaveKeepsDiskExactlyWhereNothingLostShows(
      name: string, package: seq<Path>, earlier: seq<Layer>, session: seq<Layer>, compress: bool, own: seq<Layer>,
      saved: Saved, files: Files, saveDir: string, listing: seq<string>, packages: map<string, seq<Path>>)
    requires 1 <= |session| <= 10
    requires name in packages && packages[name] == package && forall p :: p in package ==> p in files
    requires Stores(own, Layers(files, package) + earlier, session, compress)
    requires SaveOf(saved, name, own)
    requires Lists(listing, saved.overlays) && OnDisk(files, saveDir, saved.overlays)
    ensures var r, below := Resolve(saved, saveDir, listing, packages), Layers(files, package);
            && r.Ok? && r.value.name == name && (forall p :: p in r.value.chain ==> p in files)
            && (SameDisk(Layers(files, r.value.chain), below + earlier + session)
                <==> forall at :: Holds(own, at) || NothingLost(below, earlier, at))
  {
    hide Resolve, Stores, Read, Sort, Holds, NothingLost, SavedAs;
    var below := Layers(files, package);
    StoredKeepsDisk(own, below + earlier, session, compress);
    ResolvedLayers(name, package, own, saved, files, saveDir, listing, packages);
    SameDiskExactlyWhereNothingLostShows(below, earlier, session, compress, own);
  }

  /** The session wrote a sector, and not what it showed already. */
  ghost predicate Changes(below: seq<Layer>, session: seq<Layer>, at: nat) {
    exists i :: 0 <= i < |session| && at in session[i] && session[i][at] != Read(below + session[..i], at)
  }

  function LeastStack(below: seq<Layer>, session: seq<Layer>): seq<Layer> {
    seq(|session|, i requires 0 <= i < |session| => Compressed(session[i], below + session[..i]))
  }

  lemma StacksAreStored(below: seq<Layer>, session: seq<Layer>)
    ensures Stores(LeastStack(below, session), below, session, true) && Stores(session, below, session, true)
  {
  }

  /** A stored sector was written, a changed one is stored; what lies between is the converter's choice. */
  lemma StoredBetween(own: seq<Layer>, below: seq<Layer>, session: seq<Layer>, at: nat)
    requires Stores(own, below, session, true)
    ensures Holds(own, at) ==> Holds(session, at)
    ensures Changes(below, session, at) ==> Holds(own, at)
    ensures Holds(LeastStack(below, session), at) ==> Changes(below, session, at)
  {
  }

  /**
   What can be told of a compressed save beforehand: it keeps the disk for every conversion if and
   only if the session changes every sector where something is lost, and for some conversion if and
   only if it writes every such sector.
   */
  lemma CompressedResaveKeepsDisk(package: seq<Layer>, earlier: seq<Layer>, session: seq<Layer>)
    ensures (forall own :: Stores(own, package + earlier, session, true)
                           ==> SameDisk(package + own, package + earlier + session))
            <==> forall at :: Changes(package + earlier, session, at) || NothingLost(package, earlier, at)
    ensures (exists own :: Stores(own, package + earlier, session, true)
                           && SameDisk(package + own, package + earlier + session))
            <==> forall at :: Holds(session, at) || NothingLost(package, earlier, at)
  {
    var below := package + earlier;
    var least := LeastStack(below, session);
    StacksAreStored(below, session);
    hide *;
    forall own | Stores(own, below, session, true)
      ensures SameDisk(package + own, below + session)
              <==> forall at :: Holds(own, at) || NothingLost(package, earlier, at)
      ensures forall at :: Holds(own, at) ==> Holds(session, at)
      ensures forall at :: Changes(below, session, at) ==> Holds(own, at)
    {
      SameDiskExactlyWhereNothingLostShows(package, earlier, session, true, own);
      forall at: nat
        ensures Holds(own, at) ==> Holds(session, at)
        ensures Changes(below, session, at) ==> Holds(own, at)
      {
        StoredBetween(own, below, session, at);
      }
    }
    forall at: nat ensures Holds(least, at) ==> Changes(below, session, at) {
      StoredBetween(least, below, session, at);
    }
    assert Stores(least, below, session, true) && Stores(session, below, session, true);
  }

  /**
   Save, then load: of an image resolved from an installed package with at most ten session layers
   on top, the resolved chain shows the disk as it was at the pivot, compressed or not.
   */
  lemma LoadedDiskIsSavedDisk(image: Image, session: seq<Layer>, compress: bool, own: seq<Layer>, saved: Saved,
                              files: Files, saveDir: string, listing: seq<string>, packages: map<string, seq<Path>>)
    requires 1 <= |session| <= 10 && forall p :: p in image.chain ==> p in files
    requires Stores(own, Layers(files, image.chain), session, compress)
    requires SaveOf(saved, image.name, own)
    requires image.name in packages && packages[image.name] == image.chain
    requires Lists(listing, saved.overlays) && OnDisk(files, saveDir, saved.overlays)
    ensures var r := Resolve(saved, saveDir, listing, packages);
            && r == Ok(Image(image.name, image.chain + SavedPaths(saveDir, Sort(listing))))
            && (forall p :: p in r.value.chain ==> p in files)
            && SameDisk(Layers(files, r.value.chain), Layers(files, image.chain) + session)
  {
    hide Resolve, Stores, Read, Sort, SavedAs;
    StoredKeepsDisk(own, Layers(files, image.chain), session, compress);
    ResolvedLayers(image.name, image.chain, own, saved, files, saveDir, listing, packages);
  }

  /**
   With nothing of its own a session on a save loses the disk.  If it writes the same value again,
   an uncompressed save keeps the disk; of a compressed one one conversion loses it and one keeps it.
   */
  lemma ResaveLosesDisk()
    ensures var package: seq<Layer>, earlier: seq<Layer>, empty: seq<Layer> := [map[]], [map[0 := 1]], [map[]];
            && Stores(empty, package + earlier, empty, false)
            && !SameDisk(package + empty, package + earlier + empty)
            && Stores(earlier, package + earlier, earlier, false) && Stores(earlier, package + earlier, earlier, true)
            && SameDisk(package + earlier, package + earlier + earlier)
            && Stores(empty, package + earlier, earlier, true)
            && !SameDisk(package + empty, package + earlier + earlier)
  {
    var package: seq<Layer>, earlier: seq<Layer>, empty: seq<Layer> := [map[]], [map[0 := 1]], [map[]];
    ReadTopmost(package + earlier, 0, 1);
    assert Read(package, 0) == 0 && !NothingLost(package, earlier, 0);
    assert earlier[..0] == [] && package + earlier + [] == package + earlier;
    assert Packs(map[], earlier[0], package + earlier + earlier[..0]);
    StacksAreStored(package + earlier, earlier);
    SameDiskExactlyWhereNothingLostShows(package, earlier, empty, false, empty);
    SameDiskExactlyWhereNothingLostShows(package, earlier, earlier, false, earlier);
    SameDiskExactlyWhereNothingLostShows(package, earlier, earlier, true, empty);
    hide Stores, SameDisk;
    assert !Holds(empty, 0);
    forall at: nat ensures Holds(earlier, at) || NothingLost(package, earlier, at) {
      if at == 0 {
        assert at in earlier[0];
      } else {
        ReadAppend(package, earlier, at);
      }
    }
  }

  // ---------------------------------------------------------------------------------------------
  // The running session
  // ---------------------------------------------------------------------------------------------

  /** What a checkpoint has to bring back: the RAM and the whole stack of layers. */
  datatype Moment = Moment(ram: Ram, disk: seq<Layer>)

  /** The layers below the topmost file. */
  function Lower(files: Files, paths: seq<Path>): seq<Layer>
    requires paths != [] && forall p :: p in paths ==> p in files
  {
    Layers(files, paths)[..|paths| - 1]
  }

  /** The layers when the topmost file holds `data`. */
  function WithTop(files: Files, paths: seq<Path>, data: Layer): seq<Layer>
    requires paths != [] && forall p :: p in paths ==> p in files
  {
    Lower(files, paths) + [data]
  }

  /** What holds between any two operations of a session. */
  ghost predicate Consistent(image: Image, tempDir: string, files: Files, session: seq<Path>, checkpoints: seq<string>,
                             taken: map<string, Moment>)
  {
    && image.chain != [] && session != []
    && Linked(files, image.chain + session) && files[image.chain[0]].backing == None
    && (forall p :: p in image.chain ==> p.dir != tempDir)
    && (forall p :: p in session ==> p.dir == tempDir)
    && Distinct(checkpoints)
    && (forall i :: 0 <= i < |session| - 1 ==> files[session[i]].snapshots == map[])
    && TagsMatch(files[session[|session| - 1]], checkpoints, taken, Lower(files, image.chain + session))
  }

  /** The live tags are the snapshots in the active overlay, and those hold what was taken. */
  ghost predicate TagsMatch(top: File, checkpoints: seq<string>, taken: map<string, Moment>, lower: seq<Layer>) {
    && (forall tag :: tag in checkpoints <==> tag in top.snapshots)
    && taken.Keys == top.snapshots.Keys
    && forall tag :: tag in taken ==> taken[tag] == Moment(top.snapshots[tag].ram, lower + [top.snapshots[tag].data])
  }

  function Tagged(checkpoints: seq<string>, tag: string): seq<string> {
    if tag in checkpoints then checkpoints else checkpoints + [tag]
  }

  lemma TaggedMatch(top: File, checkpoints: seq<string>, taken: map<string, Moment>, lower: seq<Layer>,
                    tag: string, ram: Ram)
    requires TagsMatch(top, checkpoints, taken, lower) && Distinct(checkpoints)
    ensures TagsMatch(top.(snapshots := top.snapshots[tag := Snapshot(ram, top.data)]), Tagged(checkpoints, tag),
                      taken[tag := Moment(ram, lower + [top.data])], lower)
    ensures Distinct(Tagged(checkpoints, tag))
  {
  }

  lemma TopChange(files: Files, paths: seq<Path>, top: File)
    requires Linked(files, paths) && paths != [] && top.backing == files[paths[|paths| - 1]].backing
    ensures var files' := files[paths[|paths| - 1] := top];
            && Linked(files', paths)
            && Layers(files', paths) == WithTop(files, paths, top.data)
            && Lower(files', paths) == Lower(files, paths)
  {
    var n := |paths| - 1;
    assert forall i :: 0 <= i < n ==> paths[i] != paths[n];
  }

  lemma TopChangeIsConsistent(image: Image, tempDir: string, files: Files, session: seq<Path>,
                              checkpoints: seq<string>, taken: map<string, Moment>,
                              top: File, checkpoints': seq<string>, taken': map<string, Moment>)
    requires Consistent(image, tempDir, files, session, checkpoints, taken)
    requires top.backing == files[session[|session| - 1]].backing && Distinct(checkpoints')
    requires TagsMatch(top, checkpoints', taken', Lower(files, image.chain + session))
    ensures var files' := files[session[|session| - 1] := top];
            && Consistent(image, tempDir, files', session, checkpoints', taken')
            && Layers(files', image.chain + session) == WithTop(files, image.chain + session, top.data)
  {
    var paths, last := image.chain + session, |session| - 1;
    assert paths[|paths| - 1] == session[last];
    TopChange(files, paths, top);
    TopIsLast(image.chain, session);
    hide Linked, TagsMatch, Lower, WithTop;
    var files' := files[session[last] := top];
    assert files'[image.chain[0]] == files[image.chain[0]];
    forall i | 0 <= i < last ensures files'[session[i]].snapshots == map[] {
      assert session[i] != session[last];
    }
  }

  lemma TopIsLast(image: seq<Path>, session: seq<Path>)
    requires Distinct(image + session) && image != [] && session != []
    ensures image[0] != session[|session| - 1]
    ensures forall i :: 0 <= i < |session| - 1 ==> session[i] != session[|session| - 1]
  {
    var paths := image + session;
    forall i | 0 <= i < |paths| - 1 ensures paths[i] != session[|session| - 1] {
      assert paths[|paths| - 1] == session[|session| - 1];
    }
    assert paths[0] == image[0];
    assert forall i :: 0 <= i < |session| ==> paths[|image| + i] == session[i];
  }

  lemma OnTop(files: Files, paths: seq<Path>, p: Path)
    requires Linked(files, paths) && paths != [] && p !in files
    ensures var files' := files[p := File(map[], Some(paths[|paths| - 1]), map[])];
            && Linked(files', paths + [p])
            && Layers(files', paths + [p]) == Layers(files, paths) + [map[]]
            && Lower(files', paths + [p]) == Layers(files, paths)
  {
  }

  function FirstOverlay(tempDir: string): Path {
    Path(tempDir, "overlay.qcow2")
  }

  /** A chain of installed files that are there, over a base without backing, outside the session's directory. */
  ghost predicate Bootable(files: Files, image: Image, tempDir: string) {
    && image.chain != [] && Distinct(image.chain)
    && image.chain[0] in files && files[image.chain[0]].backing == None
    && (forall p :: p in image.chain ==> p.dir != tempDir)
    && FirstOverlay(tempDir) !in files
  }

  /** The links under the session's first overlay, as `create_overlay` leaves them. */
  function BootLinks(links: Links, chain: seq<Path>, overlay: Path): Links
    requires chain != []
  {
    if |chain| == 1 then links[overlay := Some(chain[0])]
    else Restored(links, chain[1..], chain[0], overlay)
  }

  /** The link that position `i` of a chain over a base image without backing has. */
  function LinkIn(chain: seq<Path>, i: nat): Option<Path>
    requires i < |chain|
  {
    if i == 0 then None else Some(chain[i - 1])
  }

  lemma BootLinksAt(links: Links, chain: seq<Path>, overlay: Path, i: nat)
    requires Distinct(chain) && overlay !in chain && i < |chain| && chain[0] in links
    ensures chain[i] in BootLinks(links, chain, overlay)
    ensures BootLinks(links, chain, overlay)[chain[i]] == if i == 0 then links[chain[0]] else Some(chain[i - 1])
  {
    var above := chain[1..];
    assert chain == [chain[0]] + above;
    forall i, j | 0 <= i < j < |above| ensures above[i] != above[j] {
      assert chain[i + 1] != chain[j + 1];
    }
    if i > 0 {
      RelinkedHere(links, above, chain[0], i - 1);
    } else if above != [] {
      RelinkedElsewhere(links, above, chain[0], chain[0]);
    }
  }

  lemma BootedIsConsistent(files: Files, image: Image, tempDir: string)
    requires Bootable(files, image, tempDir) && forall p :: p in image.chain ==> p in files
    ensures var overlay := FirstOverlay(tempDir);
            var files' := WithLinks(files, BootLinks(LinksOf(files), image.chain, overlay));
            && Consistent(image, tempDir, files', [overlay], [], map[])
            && Layers(files', image.chain + [overlay]) == Layers(files, image.chain) + [map[]]
  {
    var overlay := FirstOverlay(tempDir);
    var links := BootLinks(LinksOf(files), image.chain, overlay);
    forall i | 0 <= i < |image.chain|
      ensures image.chain[i] in links
      ensures links[image.chain[i]] == LinkIn(image.chain, i)
    {
      BootLinksAt(LinksOf(files), image.chain, overlay, i);
    }
    BootLinksTop(LinksOf(files), image.chain, overlay);
    hide BootLinks;
    BootedIsLinked(files, image.chain, overlay, links);
  }

  lemma BootedIsLinked(files: Files, chain: seq<Path>, overlay: Path, links: Links)
    requires chain != [] && Distinct(chain) && overlay !in files && forall p :: p in chain ==> p in files
    requires forall i :: 0 <= i < |chain| ==>
               chain[i] in links && links[chain[i]] == LinkIn(chain, i)
    requires overlay in links && links[overlay] == Some(chain[|chain| - 1])
    ensures var files' := WithLinks(files, links);
            && Linked(files', chain + [overlay])
            && files'[chain[0]].backing == None && files'[overlay].snapshots == map[]
            && Layers(files', chain + [overlay]) == Layers(files, chain) + [map[]]
  {
    var paths, files' := chain + [overlay], WithLinks(files, links);
    forall i | 0 <= i < |chain|
      ensures files'[chain[i]].backing == LinkIn(chain, i) && files'[chain[i]].data == files[chain[i]].data
    {
    }
    ChainWithOverlay(files', chain, overlay);
    assert Layers(files', paths) == Layers(files, chain) + [map[]];
  }

  lemma ChainWithOverlay(files: Files, chain: seq<Path>, overlay: Path)
    requires chain != [] && Distinct(chain) && overlay !in chain && overlay in files
    requires forall i :: 0 <= i < |chain| ==> chain[i] in files && files[chain[i]].backing == LinkIn(chain, i)
    requires files[overlay].backing == Some(chain[|chain| - 1])
    ensures Linked(files, chain + [overlay])
  {
    var paths := chain + [overlay];
    forall i | 1 <= i < |paths| ensures files[paths[i]].backing == Some(paths[i - 1]) {
      assert i < |chain| ==> paths[i] == chain[i] && LinkIn(chain, i) == Some(chain[i - 1]);
    }
  }

  lemma BootLinksTop(links: Links, chain: seq<Path>, overlay: Path)
    requires chain != []
    ensures overlay in BootLinks(links, chain, overlay)
    ensures BootLinks(links, chain, overlay)[overlay] == Some(chain[|chain| - 1])
  {
  }

  lemma TailIsChain(files: Files, paths: seq<Path>)
    requires Linked(files, paths) && |paths| > 1
    ensures IsChain(LinksOf(files), paths[1..], paths[0])
  {
    var links, above := LinksOf(files), paths[1..];
    forall i | 0 <= i < |above| ensures above[i] in links && links[above[i]] == Some(paths[i]) && above[i] != paths[0] {
      assert above[i] == paths[i + 1];
    }
  }

  lemma SplitLayers(files: Files, image: seq<Path>, frozen: seq<Path>, newest: Path)
    requires forall p :: p in image + (frozen + [newest]) ==> p in files
    ensures (forall p :: p in image ==> p in files) && forall p :: p in frozen ==> p in files
    ensures |Layers(files, image + (frozen + [newest]))| == |image| + |frozen| + 1
    ensures var disk := Layers(files, image + (frozen + [newest]));
            && Layers(files, image) == disk[..|image|]
            && Layers(files, frozen) == disk[|image|..|disk| - 1]
  {
    var whole := image + (frozen + [newest]);
    assert forall i :: 0 <= i < |image| ==> whole[i] == image[i];
    assert forall i :: 0 <= i < |frozen| ==> whole[|image| + i] == frozen[i];
  }

  lemma ImageAndSession(image: Image, tempDir: string, files: Files, session: seq<Path>, checkpoints: seq<string>,
                        taken: map<string, Moment>)
    requires Consistent(image, tempDir, files, session, checkpoints, taken)
    ensures image.chain != [] && session != [] && Distinct(image.chain)
    ensures forall p :: p in image.chain ==> p in files && p.dir != tempDir
    ensures forall p :: p in session ==> p in files && p.dir == tempDir
    ensures Linked(files, image.chain + session) && files[image.chain[0]].backing == None
    ensures forall p :: p in image.chain + session ==> p in files
  {
    var whole := image.chain + session;
    assert forall i :: 0 <= i < |image.chain| ==> whole[i] == image.chain[i];
    assert forall p :: p in image.chain ==> p in whole;
    assert forall p :: p in session ==> p in whole;
    assert image.chain[0] in image.chain;
  }

  /** Below the newest overlay the walk finds the image's overlays and then the session's. */
  lemma WalkableBelow(files: Files, image: seq<Path>, frozen: seq<Path>, newest: Path)
    requires Linked(files, image + (frozen + [newest])) && image != [] && frozen != []
    requires files[image[0]].backing == None
    ensures Linked(files, image + frozen)
    ensures IsChain(LinksOf(files), image[1..] + frozen, image[0])
    ensures forall p :: p in frozen ==> p in files
    ensures forall i :: 0 <= i < |frozen| ==>
              files[frozen[i]].backing == Some(([image[0]] + (image[1..] + frozen))[|image| - 1 + i])
  {
    var whole, paths := image + (frozen + [newest]), image + frozen;
    assert forall i :: 0 <= i < |paths| ==> whole[i] == paths[i];
    assert [image[0]] + (image[1..] + frozen) == paths;
    assert image[1..] + frozen == paths[1..];
    TailIsChain(files, paths);
    forall i | 0 <= i < |frozen| ensures files[frozen[i]].backing == Some(paths[|image| - 1 + i]) {
      assert paths[|image| + i] == frozen[i];
    }
  }

  /** The session below its newest overlay: files, places, links and layers. */
  lemma FrozenBelow(image: Image, tempDir: string, files: Files, session: seq<Path>, checkpoints: seq<string>,
                    taken: map<string, Moment>, frozen: seq<Path>, newest: Path)
    requires Consistent(image, tempDir, files, session, checkpoints, taken) && session == frozen + [newest]
    ensures image.chain != [] && Linked(files, image.chain + (frozen + [newest]))
    ensures forall p :: p in image.chain ==> p in files && p.dir != tempDir
    ensures forall p :: p in frozen ==> p in files && p.dir == tempDir
    ensures files[image.chain[0]].backing == None && forall p :: p in image.chain + session ==> p in files
    ensures var disk := Layers(files, image.chain + session);
            && |disk| == |image.chain| + |frozen| + 1
            && Layers(files, image.chain) == disk[..|image.chain|]
            && Layers(files, frozen) == disk[|image.chain|..|disk| - 1]
  {
    ImageAndSession(image, tempDir, files, session, checkpoints, taken);
    SplitLayers(files, image.chain, frozen, newest);
    hide Consistent, Linked, Layers;
    forall p | p in frozen ensures p in session {
    }
  }

  /** Walk from the frozen overlay, filter, write. */
  method WriteSession(files: Files, image: seq<Path>, tempDir: string, snapshotOverlay: Path, compress: bool,
                      convert: Converter, ghost frozen: seq<Path>, ghost newest: Path)
    returns (overlays: map<string, Layer>)
    requires image != [] && frozen != [] && frozen[|frozen| - 1] == snapshotOverlay
    requires Linked(files, image + (frozen + [newest])) && files[image[0]].backing == None
    requires forall p :: p in image ==> p in files && p.dir != tempDir
    requires forall p :: p in frozen ==> p in files && p.dir == tempDir
    ensures overlays == SavedAs(Stored(Layers(files, image), Layers(files, frozen), compress, convert))
  {
    hide Stored, SavedAs, Layers, IsChain;
    var base := image[0];
    ghost var above := image[1..];
    WalkableBelow(files, image, frozen, newest);
    hide Linked, LinksOf;
    var manager := new OverlayManager(LinksOf(files));
    var walk := manager.GetOverlayChain(snapshotOverlay, base);
    ChainIsUnique(manager.links, walk.files, above + frozen, base);
    var chain, backingFiles := Collect(walk.files, base, tempDir, above, frozen);
    overlays := Write(files, chain, compress, convert, backingFiles, image);
  }

  class Sandbox {
    const image: Image
    const tempDir: string
    var files: Files
    var overlayPath: Path
    var checkpoints: seq<string>
    var ram: Ram
    /** This session's overlays, bottom to top. */
    ghost var session: seq<Path>
    /** The machine at the latest checkpoint of each live tag. */
    ghost var taken: map<string, Moment>

    ghost function Chain(): seq<Path>
      reads this
    {
      image.chain + session
    }

    ghost predicate Valid()
      reads this
    {
      && Consistent(image, tempDir, files, session, checkpoints, taken)
      && overlayPath == session[|session| - 1]
    }

    /** The layers that the guest's disk consists of. */
    ghost function Disk(): seq<Layer>
      requires Valid()
      reads this
    {
      Layers(files, Chain())
    }

    /** `files` has the session's first overlay on top of the image already. */
    constructor (files: Files, image: Image, tempDir: string)
      requires Consistent(image, tempDir, files, [FirstOverlay(tempDir)], [], map[])
      ensures Valid() && this.image == image && this.tempDir == tempDir && this.files == files
      ensures session == [FirstOverlay(tempDir)] && checkpoints == [] && taken == map[]
    {
      this.files := files;
      this.image := image;
      this.tempDir := tempDir;
      this.overlayPath := FirstOverlay(tempDir);
      this.checkpoints := [];
      this.ram := 0;
      this.session := [FirstOverlay(tempDir)];
      this.taken := map[];
    }

    /** Replaces the active overlay's contents, and with them the live tags. */
    ghost method PrepareTop(top: File, tags: seq<string>, moments: map<string, Moment>)
      requires Valid()
      requires top.backing == files[overlayPath].backing && Distinct(tags)
      requires TagsMatch(top, tags, moments, Lower(files, Chain()))
      ensures Consistent(image, tempDir, files[overlayPath := top], session, tags, moments)
      ensures Layers(files[overlayPath := top], Chain()) == WithTop(files, Chain(), top.data)
    {
      TopChangeIsConsistent(image, tempDir, files, session, checkpoints, taken, top, tags, moments);
    }

    /** The guest runs: it may change its RAM and what the active overlay holds. */
    method GuestRuns(ram: Ram, data: Layer)
      requires Valid()
      modifies this
      ensures Valid()
      ensures this.ram == ram && Disk() == WithTop(old(files), old(Chain()), data)
      ensures session == old(session) && checkpoints == old(checkpoints) && taken == old(taken)
      ensures overlayPath == old(overlayPath) && files.Keys == old(files.Keys)
    {
      var top := files[overlayPath].(data := data);
      PrepareTop(top, checkpoints, taken);
      files := files[overlayPath := top];
      this.ram := ram;
    }

    method Checkpoint(tag: string)
      requires Valid()
      modifies this
      ensures Valid()
      ensures taken == old(taken)[tag := Moment(ram, Disk())]
      ensures ram == old(ram) && Disk() == old(Disk())
      ensures session == old(session)
      ensures checkpoints == Tagged(old(checkpoints), tag)
    {
      var active := files[overlayPath];
      var top := active.(snapshots := active.snapshots[tag := Snapshot(ram, active.data)]);
      assert Disk() == WithTop(files, Chain(), active.data);
      TaggedMatch(active, checkpoints, taken, Lower(files, Chain()), tag, ram);
      hide TagsMatch, Linked, Tagged, Lower, WithTop, Layers, Distinct;
      PrepareTop(top, Tagged(checkpoints, tag), taken[tag := Moment(ram, Disk())]);
      taken := taken[tag := Moment(ram, Disk())];
      files := files[overlayPath := top];
      if tag !in checkpoints {
        checkpoints := checkpoints + [tag];
      }
    }

    /** Brings back the machine of the latest checkpoint under `tag`, or refuses an unknown tag. */
    method Revert(tag: string) returns (ok: bool)
      requires Valid()
      modifies this
      ensures Valid()
      ensures ok <==> tag in old(taken)
      ensures ok ==> Moment(ram, Disk()) == old(taken)[tag]
      ensures !ok ==> ram == old(ram) && files == old(files)
      ensures taken == old(taken) && checkpoints == old(checkpoints) && session == old(session)
    {
      if tag !in checkpoints {
        return false;
      }
      var snapshot := files[overlayPath].snapshots[tag];
      var top := files[overlayPath].(data := snapshot.data);
      PrepareTop(top, checkpoints, taken);
      files := files[overlayPath := top];
      ram := snapshot.ram;
      return true;
    }

    /** `delvm` for every tag, then the list is emptied. */
    method DeleteCheckpoints()
      requires Valid()
      modifies this
      ensures Valid()
      ensures checkpoints == [] && taken == map[] && files[overlayPath].snapshots == map[]
      ensures Disk() == old(Disk()) && ram == old(ram) && session == old(session)
      ensures overlayPath == old(overlayPath) && files.Keys == old(files.Keys)
    {
      var active := files[overlayPath];
      assert Disk() == WithTop(files, Chain(), active.data);
      PrepareTop(active.(snapshots := map[]), [], map[]);
      DeleteSnapshots();
      checkpoints := [];
      taken := map[];
    }

    method DeleteSnapshots()
      requires overlayPath in files && Distinct(checkpoints)
      requires forall tag :: tag in checkpoints <==> tag in files[overlayPath].snapshots
      modifies `files
      ensures files == old(files)[overlayPath := old(files)[overlayPath].(snapshots := map[])]
    {
      for i := 0 to |checkpoints|
        invariant overlayPath in files
        invariant var active := old(files)[overlayPath];
                  files == old(files)[overlayPath := active.(snapshots := files[overlayPath].snapshots)]
        invariant forall tag :: tag in files[overlayPath].snapshots <==> tag in checkpoints[i..]
      {
        var rest := files[overlayPath].snapshots - {checkpoints[i]};
        assert forall j :: i < j < |checkpoints| ==> checkpoints[j] != checkpoints[i];
        files := files[overlayPath := files[overlayPath].(snapshots := rest)];
      }
      assert files[overlayPath].snapshots == map[];
    }

    /** `blockdev-snapshot-sync`: writes go to a new overlay, the old one is left as it is. */
    method Pivot(newOverlay: Path)
      requires Valid() && checkpoints == [] && newOverlay !in files && newOverlay.dir == tempDir
      modifies this
      ensures Valid()
      ensures session == old(session) + [newOverlay] && checkpoints == [] && taken == map[] && ram == old(ram)
      ensures Disk() == old(Disk()) + [map[]]
      ensures files == old(files)[newOverlay := File(map[], Some(old(overlayPath)), map[])]
    {
      OnTop(files, Chain(), newOverlay);
      assert image.chain + (session + [newOverlay]) == Chain() + [newOverlay];
      files := files[newOverlay := File(map[], Some(overlayPath), map[])];
      overlayPath := newOverlay;
      session := session + [newOverlay];
    }

    /** The session's layers below the newest, as a save stores them. */
    method WriteChain(snapshotOverlay: Path, compress: bool, convert: Converter, ghost frozen: seq<Path>)
      returns (overlays: map<string, Layer>)
      requires Valid() && frozen != [] && session == frozen + [overlayPath]
      requires frozen[|frozen| - 1] == snapshotOverlay
      ensures var below, own := Disk()[..|image.chain|], Disk()[|image.chain|..|Disk()| - 1];
              overlays == SavedAs(Stored(below, own, compress, convert))
    {
      hide Consistent, Linked, Layers, Stored, SavedAs;
      FrozenBelow(image, tempDir, files, session, checkpoints, taken, frozen, overlayPath);
      assert Disk() == Layers(files, image.chain + session);
      hide *;
      overlays :=
        WriteSession(files, image.chain, tempDir, snapshotOverlay, compress, convert, frozen, overlayPath);
    }

    /** The pivot and what is written of the layers frozen by it. */
    method PivotAndWrite(compress: bool, convert: Converter, newOverlay: Path)
      returns (overlays: map<string, Layer>)
      requires Valid() && checkpoints == [] && newOverlay !in files && newOverlay.dir == tempDir
      modifies this
      ensures Valid() && Disk() == old(Disk()) + [map[]]
      ensures ram == old(ram) && session == old(session) + [newOverlay] && checkpoints == []
      ensures var pivot := old(Disk());
              overlays == SavedAs(Stored(pivot[..|image.chain|], pivot[|image.chain|..], compress, convert))
    {
      ImageAndSession(image, tempDir, files, session, checkpoints, taken);
      hide Consistent, Stored, SavedAs, Linked, Layers;
      ghost var pivot, frozen := Disk(), session;
      var snapshotOverlay := overlayPath;
      Pivot(newOverlay);
      overlays := WriteChain(snapshotOverlay, compress, convert, frozen);
      assert Disk()[..|image.chain|] == pivot[..|image.chain|];
      assert Disk()[|image.chain|..|Disk()| - 1] == pivot[|image.chain|..];
    }

    /** The save proper: freezes the active overlay under a new one and writes the session's layers. */
    method Freeze(ram: Ram, settled: Layer, compress: bool, convert: Converter, deleteCheckpoints: bool,
                  newOverlay: Path)
      returns (saved: Saved, ghost pivot: seq<Layer>)
      requires Valid() && newOverlay !in files && newOverlay.dir == tempDir
      requires checkpoints == [] || deleteCheckpoints
      modifies this
      ensures Valid()
      ensures pivot == WithTop(old(files), old(Chain()), settled) && Disk() == pivot + [map[]]
      ensures this.ram == ram && session == old(session) + [newOverlay] && checkpoints == []
      ensures saved == Saved(SAVE_VERSION, image.name,
                             SavedAs(Stored(pivot[..|image.chain|], pivot[|image.chain|..], compress, convert)))
    {
      hide Consistent, Stored, SavedAs, Linked, Layers, WithTop;
      GuestRuns(ram, settled);
      pivot := Disk();
      if deleteCheckpoints {
        DeleteCheckpoints();
      }
      var overlays := PivotAndWrite(compress, convert, newOverlay);
      saved := Saved(SAVE_VERSION, image.name, overlays);
    }

    /** A hot save.  It is refused, and nothing changes, while checkpoints are live and not to be deleted. */
    method Save(ram: Ram, settled: Layer, compress: bool, convert: Converter, deleteCheckpoints: bool, newOverlay: Path)
      returns (r: Result<Saved>, ghost pivot: seq<Layer>)
      requires Valid() && newOverlay !in files && newOverlay.dir == tempDir
      modifies this
      ensures Valid()
      ensures r.Err? <==> old(checkpoints) != [] && !deleteCheckpoints
      ensures r.Err? ==> r.error == ActiveCheckpoints && files == old(files) && this.ram == old(this.ram)
      ensures r.Err? ==> checkpoints == old(checkpoints) && session == old(session) && taken == old(taken)
      ensures r.Ok? ==> pivot == WithTop(old(files), old(Chain()), settled) && Disk() == pivot + [map[]]
      ensures r.Ok? ==> this.ram == ram && session == old(session) + [newOverlay] && checkpoints == []
      ensures r.Ok? ==>
                var own := Stored(pivot[..|image.chain|], pivot[|image.chain|..], compress, convert);
                r.value == Saved(SAVE_VERSION, image.name, SavedAs(own))
    {
      hide Consistent, Stored, SavedAs, Linked;
      pivot := [];
      if checkpoints != [] && !deleteCheckpoints {
        r := Err(ActiveCheckpoints);
      } else {
        var saved, frozenDisk := Freeze(ram, settled, compress, convert, deleteCheckpoints, newOverlay);
        r, pivot := Ok(saved), frozenDisk;
      }
    }
  }

  /** Boots on a fresh overlay over a resolved image, whatever the links of its overlays say. */
  method Boot(files: Files, image: Image, tempDir: string) returns (s: Option<Sandbox>)
    requires Bootable(files, image, tempDir)
    ensures s.Some? <==> forall p :: p in image.chain ==> p in files
    ensures s.Some? ==> fresh(s.value) && s.value.Valid() && s.value.image == image && s.value.tempDir == tempDir
    ensures s.Some? ==> s.value.Disk() == Layers(files, image.chain) + [map[]] && s.value.checkpoints == []
  {
    var base, overlay := image.chain[0], FirstOverlay(tempDir);
    assert image.chain == [base] + image.chain[1..];
    var manager := new OverlayManager(LinksOf(files));
    var ok := manager.CreateOverlay(base, overlay, image.chain[1..]);
    if !ok {
      return None;
    }
    assert manager.links == BootLinks(LinksOf(files), image.chain, overlay);
    BootedIsConsistent(files, image, tempDir);
    var sandbox := new Sandbox(WithLinks(files, manager.links), image, tempDir);
    return Some(sandbox);
  }

  /** A host with the save's directory put beside its other files; the copied links are stale. */
  function Unpacked(host: Files, saveDir: string, overlays: map<string, Layer>, stale: string -> Option<Path>): Files {
    map p | p in host.Keys + (set x | x in overlays :: Path(saveDir, x)) ::
      if p.dir == saveDir && p.name in overlays then File(overlays[p.name], stale(p.name), map[]) else host[p]
  }

  /** The loading host has the named package as it was, and neither directory is in use yet. */
  ghost predicate HasPackage(host: Files, image: Image, files: Files, saveDir: string, tempDir: string)
    requires forall p :: p in image.chain ==> p in files
  {
    && (forall p :: p in image.chain ==> p in host && host[p].data == files[p].data)
    && image.chain != [] && host[image.chain[0]].backing == None
    && (forall p :: p in image.chain ==> p.dir != saveDir && p.dir != tempDir)
    && FirstOverlay(tempDir) !in host && saveDir != tempDir
  }

  lemma UnpackedIsBootable(host: Files, image: Image, files: Files, saveDir: string, tempDir: string,
                           overlays: map<string, Layer>, stale: string -> Option<Path>, listing: seq<string>)
    requires Distinct(image.chain) && forall p :: p in image.chain ==> p in files
    requires HasPackage(host, image, files, saveDir, tempDir) && Lists(listing, overlays)
    ensures var files' := Unpacked(host, saveDir, overlays, stale);
            && OnDisk(files', saveDir, overlays)
            && (forall p :: p in image.chain ==> p in files')
            && Layers(files', image.chain) == Layers(files, image.chain)
            && Bootable(files', Image(image.name, image.chain + SavedPaths(saveDir, Sort(listing))), tempDir)
  {
    var files' := Unpacked(host, saveDir, overlays, stale);
    forall x | x in overlays ensures Path(saveDir, x) in files' {
      assert Path(saveDir, x) in (set x | x in overlays :: Path(saveDir, x));
    }
    LoadedLayers(files', saveDir, overlays, listing);
  }

  /** Resolves a save on a host that has the named package, and boots the result. */
  method Load(saved: Saved, host: Files, stale: string -> Option<Path>, listing: seq<string>, saveDir: string,
              packages: map<string, seq<Path>>, tempDir: string,
              ghost package: Image, ghost files: Files, ghost own: seq<Layer>)
    returns (r: Option<Sandbox>)
    requires Distinct(package.chain) && forall p :: p in package.chain ==> p in files
    requires HasPackage(host, package, files, saveDir, tempDir)
    requires package.name in packages && packages[package.name] == package.chain
    requires 1 <= |own| <= 10 && Distinct(listing) && SameNames(listing, SaveNames(|own|))
    requires SaveOf(saved, package.name, own)
    ensures r.Some? && fresh(r.value) && r.value.Valid()
    ensures SameDisk(r.value.Disk(), Layers(files, package.chain) + own)
  {
    hide Resolve, Unpacked, HasPackage, Bootable, OnDisk, Sort, Consistent, Read, SavedAs;
    SavedAsMeaning(own);
    var unpacked := Unpacked(host, saveDir, saved.overlays, stale);
    UnpackedIsBootable(host, package, files, saveDir, tempDir, saved.overlays, stale, listing);
    ResolvedLayers(package.name, package.chain, own, saved, unpacked, saveDir, listing, packages);
    var resolved := Resolve(saved, saveDir, listing, packages);
    r := Boot(unpacked, resolved.value, tempDir);
    FreshOverlayKeepsDisk(Layers(unpacked, resolved.value.chain));
  }

  /**
   The whole way: save a session of at most ten layers, resolve the save on a host that has the
   package it is named after, and boot it.  The old guest has lost nothing.  The new guest's disk is
   the old guest's at the pivot if the image was the package's; if there were more layers below the
   session, if and only if nothing of theirs shows.
   */
  method SaveAndLoad(s: Sandbox, ram: Ram, settled: Layer, compress: bool, convert: Converter, newOverlay: Path,
                     host: Files, stale: string -> Option<Path>, listing: seq<string>, saveDir: string,
                     packages: map<string, seq<Path>>, tempDir: string)
    returns (r: Option<Sandbox>, ghost pivot: seq<Layer>)
    requires s.Valid() && newOverlay !in s.files && newOverlay.dir == s.tempDir && |s.session| <= 10
    requires s.image.name in packages && packages[s.image.name] <= s.image.chain
    requires Distinct(listing) && SameNames(listing, SaveNames(|s.session|))
    requires forall p :: p in packages[s.image.name] ==> p in s.files
    requires HasPackage(host, Image(s.image.name, packages[s.image.name]), s.files, saveDir, tempDir)
    modifies s
    ensures pivot == WithTop(old(s.files), old(s.Chain()), settled)
    ensures r.Some? && s != r.value && s.Valid() && r.value.Valid()
    ensures SameDisk(s.Disk(), pivot)
    ensures packages[s.image.name] == s.image.chain ==> SameDisk(r.value.Disk(), pivot)
    ensures var m, n := |packages[s.image.name]|, |s.image.chain|;
            var own := Stored(pivot[..n], pivot[n..], compress, convert);
            SameDisk(r.value.Disk(), pivot)
            <==> forall at :: Holds(own, at) || NothingLost(pivot[..m], pivot[m..n], at)
  {
    ghost var files, session := s.files, s.session;
    ImageAndSession(s.image, s.tempDir, files, session, s.checkpoints, s.taken);
    SplitPivot(files, s.image.chain, session, settled);
    var package := packages[s.image.name];
    ghost var m, n := |package|, |s.image.chain|;
    PrefixOfDistinct(s.image.chain, m);
    LayersOfPrefix(files, s.image.chain, m);
    hide SavedAs, Linked, Consistent, HasPackage, SaveNames, Read, Layers, Holds, NothingLost, Stores, Stored;
    var saved, atPivot := s.Save(ram, settled, compress, convert, true, newOverlay);
    pivot := atPivot;
    ghost var own := Stored(pivot[..n], pivot[n..], compress, convert);
    StoredStores(pivot[..n], pivot[n..], compress, convert);
    StoredKeepsDisk(own, pivot[..n], pivot[n..], compress);
    FreshOverlayKeepsDisk(pivot);
    r := Load(saved.value, host, stale, listing, saveDir, packages, tempDir,
              Image(s.image.name, package), files, own);
    assert package == s.image.chain[..m] && pivot[..n][..m] == pivot[..m];
    ReloadedPivot(pivot, m, n, compress, own, r.value.Disk());
  }

  lemma ReloadedPivot(pivot: seq<Layer>, m: nat, n: nat, compress: bool, own: seq<Layer>, reloaded: seq<Layer>)
    requires m <= n <= |pivot| && Stores(own, pivot[..n], pivot[n..], compress)
    requires SameDisk(reloaded, pivot[..m] + own)
    ensures SameDisk(reloaded, pivot) <==> forall at :: Holds(own, at) || NothingLost(pivot[..m], pivot[m..n], at)
    ensures m == n ==> SameDisk(reloaded, pivot)
  {
    assert pivot[..m] + pivot[m..n] == pivot[..n] && pivot[..n] + pivot[n..] == pivot;
    SameDiskExactlyWhereNothingLostShows(pivot[..m], pivot[m..n], pivot[n..], compress, own);
    StoredKeepsDisk(own, pivot[..n], pivot[n..], compress);
    hide Stores, Holds, NothingLost, Read;
  }

  lemma PrefixOfDistinct(paths: seq<Path>, m: nat)
    requires Distinct(paths) && m <= |paths|
    ensures Distinct(paths[..m])
  {
  }

  lemma LayersOfPrefix(files: Files, paths: seq<Path>, m: nat)
    requires m <= |paths| && forall p :: p in paths ==> p in files
    ensures (forall p :: p in paths[..m] ==> p in files) && Layers(files, paths[..m]) == Layers(files, paths)[..m]
  {
  }

  lemma SplitPivot(files: Files, image: seq<Path>, session: seq<Path>, settled: Layer)
    requires session != [] && forall p :: p in image + session ==> p in files
    ensures forall p :: p in image ==> p in files
    ensures var pivot := WithTop(files, image + session, settled);
            pivot[..|image|] == Layers(files, image) && |pivot[|image|..]| == |session|
  {
    assert forall i :: 0 <= i < |image| ==> (image + session)[i] == image[i];
  }
}
