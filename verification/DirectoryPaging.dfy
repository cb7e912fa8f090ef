/**
 QUERY_DIRECTORY: the layout of directory entries, and paging through a listing with a cursor kept
 in the open handle.

 File names are their UTF-16LE bytes; a surrogate on its own, which stands for a byte that is not
 UTF-8, is among them as it is.  Scanning and stat'ing the host's directory are answers from outside;
 those of one call are its parameters.
 */
module DirectoryPaging {
  import opened Bytes
  import opened Sequences
  import Utf16
  import opened Wrappers

  type Name = s: seq<byte> | |s| < 0x1_0000

  const DOT: Name := [0x2E, 0]
  const DOT_DOT: Name := [0x2E, 0, 0x2E, 0]

  const FILE_DIRECTORY_INFORMATION := 1
  const FILE_BOTH_DIRECTORY_INFORMATION := 3
  const FILE_NAMES_INFORMATION := 12
  const FILE_ID_BOTH_DIRECTORY_INFORMATION := 37
  const FILE_ID_FULL_DIRECTORY_INFORMATION := 38

  /** Time stamps, sizes and attributes as packed, and the inode number. */
  datatype Stat = Stat(attributes: Attributes, fileId: FileId)

  type Attributes = s: seq<byte> | |s| == 52 witness Zeros(52)

  type FileId = s: seq<byte> | |s| == 8 witness Zeros(8)

  /** What asking about an entry gives: it may be gone, and asking whether it is a directory may raise. */
  datatype Probe = Found(stat: Stat) | Gone | Raises

  /** What building an entry gives. */
  datatype Build = Built(entry: seq<byte>) | Skipped | Raised

  datatype Response = Success(output: seq<byte>) | Error(status: Status)

  /** `Unsuccessful` is what the frame loop answers when the handler raises. */
  datatype Status = InvalidParameter | ObjectNameNotFound | NoMoreFiles | BufferTooSmall | Unsuccessful

  // ---------------------------------------------------------------------------------------------
  // Entries
  // ---------------------------------------------------------------------------------------------

  predicate Supported(infoClass: byte) {
    infoClass in {FILE_DIRECTORY_INFORMATION, FILE_BOTH_DIRECTORY_INFORMATION, FILE_NAMES_INFORMATION,
                  FILE_ID_BOTH_DIRECTORY_INFORMATION, FILE_ID_FULL_DIRECTORY_INFORMATION}
  }

  /** Where the name starts: the sizes of section 2.4 of [MS-FSCC]. */
  function FixedSize(infoClass: byte): nat
    requires Supported(infoClass)
  {
    if infoClass == FILE_NAMES_INFORMATION then 12
    else if infoClass == FILE_DIRECTORY_INFORMATION then 64
    else if infoClass == FILE_ID_FULL_DIRECTORY_INFORMATION then 80
    else if infoClass == FILE_BOTH_DIRECTORY_INFORMATION then 94
    else 104
  }

  function NameLengthAt(infoClass: byte): nat
    requires Supported(infoClass)
  {
    if infoClass == FILE_NAMES_INFORMATION then 8 else 60
  }

  /** What follows the name's length: EA size, short name, reserved fields, file id. */
  function Tail(infoClass: byte, fileId: FileId): seq<byte>
    requires Supported(infoClass)
  {
    if infoClass == FILE_BOTH_DIRECTORY_INFORMATION then Zeros(30)
    else if infoClass == FILE_ID_BOTH_DIRECTORY_INFORMATION then Zeros(30) + Zeros(2) + fileId
    else if infoClass == FILE_ID_FULL_DIRECTORY_INFORMATION then Zeros(8) + fileId
    else []
  }

  function Fixed(infoClass: byte, stat: Stat, nameLength: uint32): (fixed: seq<byte>)
    requires Supported(infoClass)
    ensures |fixed| == FixedSize(infoClass)
    ensures ReadLE32(fixed, NameLengthAt(infoClass)) == nameLength
  {
    LE32RoundTrip(nameLength);
    if infoClass == FILE_NAMES_INFORMATION then LE32(0) + LE32(0) + LE32(nameLength)
    else
      var front := LE32(0) + LE32(0) + stat.attributes;
      var fixed := front + LE32(nameLength) + Tail(infoClass, stat.fileId);
      assert forall i :: 0 <= i < 4 ==> fixed[60 + i] == LE32(nameLength)[i];
      fixed
  }

  /** The classes answered, by their numbers, and where their fixed part ends: section 2.4 of [MS-FSCC]. */
  lemma ClassSizes(infoClass: byte)
    ensures Supported(infoClass) <==> infoClass in {1, 3, 12, 37, 38}
    ensures Supported(infoClass) ==>
              FixedSize(infoClass) == match infoClass
                                      case 1 => 64
                                      case 3 => 94
                                      case 12 => 12
                                      case 37 => 104
                                      case _ => 80
  {
  }

  /** Which bytes of the fixed part hold what: FileIndex zero, then the stat's bytes, reserved zeros, the file id. */
  lemma FixedLayout(infoClass: byte, stat: Stat, nameLength: uint32)
    requires Supported(infoClass)
    ensures var fixed := Fixed(infoClass, stat, nameLength);
            && fixed[..8] == Zeros(8)
            && (infoClass != 12 ==> fixed[8..60] == stat.attributes)
            && (infoClass == 3 ==> fixed[64..94] == Zeros(30))
            && (infoClass == 37 ==> fixed[64..96] == Zeros(32) && fixed[96..104] == stat.fileId)
            && (infoClass == 38 ==> fixed[64..72] == Zeros(8) && fixed[72..80] == stat.fileId)
  {
    var fixed := Fixed(infoClass, stat, nameLength);
    assert LE32(0) == Zeros(4);
    if infoClass == 12 {
      assert fixed[..8] == LE32(0) + LE32(0);
    } else {
      var front := LE32(0) + LE32(0) + stat.attributes + LE32(nameLength);
      assert fixed == front + Tail(infoClass, stat.fileId) && |front| == 64;
      assert fixed[..8] == LE32(0) + LE32(0) && fixed[8..60] == stat.attributes;
      assert fixed[64..] == Tail(infoClass, stat.fileId);
      assert infoClass == 37 ==> fixed[64..96] == fixed[64..][..32] && fixed[96..104] == fixed[64..][32..40];
      assert infoClass == 38 ==> fixed[64..72] == fixed[64..][..8] && fixed[72..80] == fixed[64..][8..16];
    }
  }

  lemma DotsAreText()
    ensures DOT == Utf16.AllUnits([0x2E]) && DOT_DOT == Utf16.AllUnits([0x2E, 0x2E])
  {
    assert [0x2E, 0x2E][1..] == [0x2E];
  }

  function Entry(infoClass: byte, stat: Stat, name: Name): (entry: seq<byte>)
    requires Supported(infoClass)
    ensures FixedSize(infoClass) + |name| <= |entry| < FixedSize(infoClass) + |name| + 8
    ensures |entry| % 8 == 0 && ReadLE32(entry, NameLengthAt(infoClass)) == |name|
    ensures entry[FixedSize(infoClass)..FixedSize(infoClass) + |name|] == name
  {
    var whole := Fixed(infoClass, stat, |name|) + name;
    var entry := Pad8(whole);
    assert forall i :: 0 <= i < |whole| ==> entry[i] == whole[i];
    entry
  }

  /** Asking about the entry raises, or its name is the encoding of no text. */
  ghost predicate RaisesOn(probe: Probe, name: Name) {
    probe.Raises? || (probe.Found? && !Utf16.IsText(name))
  }

  /** The name is encoded before the class is looked at. */
  function BuildEntry(infoClass: byte, probe: Probe, name: Name): (build: Build)
    ensures build.Raised? <==> RaisesOn(probe, name)
    ensures build.Built? <==> probe.Found? && Utf16.IsText(name) && Supported(infoClass)
  {
    Utf16.EncodableExactly(name);
    if probe.Gone? then Skipped
    else if probe.Raises? || !Utf16.Encodable(name) then Raised
    else if !Supported(infoClass) then Skipped
    else Built(Entry(infoClass, probe.stat, name))
  }

  // ---------------------------------------------------------------------------------------------
  // A response's entries, chained by NextEntryOffset
  // ---------------------------------------------------------------------------------------------

  type Host = Name -> Probe

  ghost predicate AreEntries(infoClass: byte, stat: Host, names: seq<Name>, entries: seq<seq<byte>>) {
    && |entries| == |names|
    && forall i :: 0 <= i < |names| ==> BuildEntry(infoClass, stat(names[i]), names[i]) == Built(entries[i])
  }

  function Chained(entries: seq<seq<byte>>): seq<byte>
    requires forall e :: e in entries ==> 4 <= |e| < 0x1_0000_0000
  {
    if entries == [] then []
    else PutLE32(entries[0], 0, if |entries| > 1 then |entries[0]| else 0) + Chained(entries[1..])
  }

  /** How a client reads a response: name by name, following NextEntryOffset until it is zero. */
  function Walk(infoClass: byte, output: seq<byte>): Option<seq<Name>>
    requires Supported(infoClass)
    decreases |output|
  {
    if |output| < FixedSize(infoClass) then None
    else
      var next := ReadLE32(output, 0);
      var nameLength := ReadLE32(output, NameLengthAt(infoClass));
      var fixed := FixedSize(infoClass);
      if nameLength >= 0x1_0000 || fixed + nameLength > |output| || next > |output| then None
      else
        var name := output[fixed..fixed + nameLength];
        if next == 0 then Some([name])
        else match Walk(infoClass, output[next..])
          case None => None
          case Some(names) => Some([name] + names)
  }

  /** Patching the first field and appending what follows leaves the rest of an entry as it was. */
  lemma PatchKeepsTheRest(entry: seq<byte>, next: uint32, rest: seq<byte>)
    requires |entry| >= 4
    ensures var output := PutLE32(entry, 0, next) + rest;
            && ReadLE32(output, 0) == next && output[|entry|..] == rest
            && forall i :: 4 <= i < |entry| ==> output[i] == entry[i]
  {
    var patched := PutLE32(entry, 0, next);
    hide PutLE32;
    forall i | 4 <= i < |entry| ensures patched[i] == entry[i] {
      assert patched[i] == patched[4..][i - 4] == entry[4..][i - 4];
    }
  }

  lemma SlicesAgree(a: seq<byte>, b: seq<byte>, lo: nat, hi: nat)
    requires lo <= hi <= |a| && hi <= |b| && forall i :: lo <= i < hi ==> a[i] == b[i]
    ensures a[lo..hi] == b[lo..hi]
  {
  }

  lemma PatchedEntryReads(infoClass: byte, stat: Stat, name: Name, next: uint32, rest: seq<byte>)
    requires Supported(infoClass)
    ensures var output := PutLE32(Entry(infoClass, stat, name), 0, next) + rest;
            var fixed := FixedSize(infoClass);
            && ReadLE32(output, 0) == next
            && ReadLE32(output, NameLengthAt(infoClass)) == |name|
            && output[fixed..fixed + |name|] == name
  {
    var entry := Entry(infoClass, stat, name);
    var output := PutLE32(entry, 0, next) + rest;
    PatchKeepsTheRest(entry, next, rest);
    var fixed := FixedSize(infoClass);
    assert fixed >= 12;
    hide Entry, PutLE32, Supported, FixedSize;
    SlicesAgree(output, entry, fixed, fixed + |name|);
  }

  /** The client's step over one entry, the last one or one that others follow. */
  lemma WalkStep(infoClass: byte, stat: Stat, name: Name, rest: seq<byte>)
    requires Supported(infoClass)
    ensures var entry := Entry(infoClass, stat, name);
            && Walk(infoClass, PutLE32(entry, 0, 0)) == Some([name])
            && (Walk(infoClass, rest).Some? ==>
                  Walk(infoClass, PutLE32(entry, 0, |entry|) + rest) == Some([name] + Walk(infoClass, rest).value))
  {
    hide Entry, PutLE32, ReadLE32;
    var entry := Entry(infoClass, stat, name);
    PatchedEntryReads(infoClass, stat, name, 0, []);
    assert PutLE32(entry, 0, 0) + [] == PutLE32(entry, 0, 0);
    PatchedEntryReads(infoClass, stat, name, |entry|, rest);
    assert (PutLE32(entry, 0, |entry|) + rest)[|entry|..] == rest;
  }

  lemma EntriesAreSized(infoClass: byte, stat: Host, names: seq<Name>, entries: seq<seq<byte>>)
    requires AreEntries(infoClass, stat, names, entries)
    ensures |entries| == |names| && forall e :: e in entries ==> 4 <= |e| < 0x1_0000_0000
    ensures names != [] ==>
              && BuildEntry(infoClass, stat(names[0]), names[0]) == Built(entries[0])
              && AreEntries(infoClass, stat, names[1..], entries[1..])
  {
    hide Entry;
  }

  lemma WalkBuilt(infoClass: byte, stat: Host, name: Name, entry: seq<byte>, rest: seq<byte>)
    requires BuildEntry(infoClass, stat(name), name) == Built(entry)
    ensures Supported(infoClass) && 4 <= |entry| < 0x1_0000_0000
    ensures Walk(infoClass, PutLE32(entry, 0, 0)) == Some([name])
    ensures Walk(infoClass, rest).Some? ==>
              Walk(infoClass, PutLE32(entry, 0, |entry|) + rest) == Some([name] + Walk(infoClass, rest).value)
  {
    hide Entry, PutLE32, Walk;
    WalkStep(infoClass, stat(name).stat, name, rest);
  }

  lemma ChainedStep(entries: seq<seq<byte>>)
    requires entries != [] && forall e :: e in entries ==> 4 <= |e| < 0x1_0000_0000
    ensures forall e :: e in entries[1..] ==> 4 <= |e| < 0x1_0000_0000
    ensures |entries| > 1 ==> Chained(entries) == PutLE32(entries[0], 0, |entries[0]|) + Chained(entries[1..])
    ensures |entries| == 1 ==> Chained(entries) == PutLE32(entries[0], 0, 0)
    ensures Chained(entries)
            == PutLE32(entries[0], 0, if |entries| > 1 then |entries[0]| else 0) + Chained(entries[1..])
  {
    hide PutLE32;
  }

  lemma NothingChained()
    ensures Chained([]) == []
  {
  }

  /** What the client reads back is exactly what was packed, in order. */
  lemma {:induction false} WalkChained(infoClass: byte, stat: Host, names: seq<Name>, entries: seq<seq<byte>>)
    requires names != [] && AreEntries(infoClass, stat, names, entries)
    ensures Supported(infoClass) && forall e :: e in entries ==> 4 <= |e| < 0x1_0000_0000
    ensures Walk(infoClass, Chained(entries)) == Some(names)
  {
    hide *;
    EntriesAreSized(infoClass, stat, names, entries);
    ChainedStep(entries);
    if |names| > 1 {
      WalkChained(infoClass, stat, names[1..], entries[1..]);
      WalkBuilt(infoClass, stat, names[0], entries[0], Chained(entries[1..]));
      assert names == [names[0]] + names[1..];
    } else {
      WalkBuilt(infoClass, stat, names[0], entries[0], []);
      assert names == [names[0]];
    }
  }

  function TotalSize(entries: seq<seq<byte>>): nat {
    if entries == [] then 0 else |entries[0]| + TotalSize(entries[1..])
  }

  lemma {:induction false} TotalSizeAppend(entries: seq<seq<byte>>, last: seq<byte>)
    ensures TotalSize(entries + [last]) == TotalSize(entries) + |last|
  {
    if entries != [] {
      assert (entries + [last])[1..] == entries[1..] + [last];
      TotalSizeAppend(entries[1..], last);
    }
  }

  lemma {:induction false} ChainedLength(entries: seq<seq<byte>>)
    requires forall e :: e in entries ==> 4 <= |e| < 0x1_0000_0000
    ensures |Chained(entries)| == TotalSize(entries)
  {
    if entries != [] {
      ChainedLength(entries[1..]);
    }
  }

  method ChainEntries(entries: seq<seq<byte>>) returns (output: seq<byte>)
    requires forall e :: e in entries ==> 4 <= |e| < 0x1_0000_0000
    ensures output == Chained(entries)
  {
    output := [];
    hide *;
    assert entries[0..] == entries;
    for i := 0 to |entries|
      invariant output + Chained(entries[i..]) == Chained(entries)
    {
      var next := if i < |entries| - 1 then |entries[i]| else 0;
      var patched := PutLE32(entries[i], 0, next);
      ChainedStep(entries[i..]);
      assert entries[i..][0] == entries[i] && entries[i..][1..] == entries[i + 1..];
      assert output + (patched + Chained(entries[i + 1..])) == output + patched + Chained(entries[i + 1..]);
      output := output + patched;
    }
    NothingChained();
    assert entries[|entries|..] == [] && output + [] == output;
  }

  // ---------------------------------------------------------------------------------------------
  // The cursor
  // ---------------------------------------------------------------------------------------------

  /** The listed names whose place in `fates` is true. */
  function Select(listing: seq<Name>, fates: seq<bool>): (names: seq<Name>)
    requires |fates| == |listing|
  {
    if listing == [] then []
    else
      var n := |listing| - 1;
      Select(listing[..n], fates[..n]) + if fates[n] then [listing[n]] else []
  }

  /** Whether each name can be built when it is reached. */
  function Fates(infoClass: byte, stat: Host, listing: seq<Name>): (fates: seq<bool>)
    ensures |fates| == |listing|
  {
    seq(|listing|, i requires 0 <= i < |listing| => BuildEntry(infoClass, stat(listing[i]), listing[i]).Built?)
  }

  /** The names of a stretch of the listing that can be built. */
  function Buildable(infoClass: byte, stat: Host, listing: seq<Name>): seq<Name> {
    Select(listing, Fates(infoClass, stat, listing))
  }

  /** The room that their entries take. */
  function BuiltSize(infoClass: byte, stat: Host, listing: seq<Name>): nat {
    if listing == [] then 0
    else
      var n := |listing| - 1;
      BuiltSize(infoClass, stat, listing[..n])
      + match BuildEntry(infoClass, stat(listing[n]), listing[n])
        case Built(entry) => |entry|
        case _ => 0
  }

  lemma {:induction false} BuiltSizeGrows(infoClass: byte, stat: Host, listing: seq<Name>, from: nat, mid: nat, to: nat)
    requires from <= mid <= to <= |listing|
    ensures BuiltSize(infoClass, stat, listing[from..mid]) <= BuiltSize(infoClass, stat, listing[from..to])
  {
    if mid < to {
      assert listing[from..to][..to - from - 1] == listing[from..to - 1];
      BuiltSizeGrows(infoClass, stat, listing, from, mid, to - 1);
    }
  }

  lemma {:induction false} SelectAppend(a: seq<Name>, b: seq<Name>, fatesA: seq<bool>, fatesB: seq<bool>)
    requires |fatesA| == |a| && |fatesB| == |b|
    ensures Select(a + b, fatesA + fatesB) == Select(a, fatesA) + Select(b, fatesB)
  {
    if b == [] {
      assert a + b == a && fatesA + fatesB == fatesA;
    } else {
      var n := |b| - 1;
      assert (a + b)[..|a| + n] == a + b[..n] && (fatesA + fatesB)[..|a| + n] == fatesA + fatesB[..n];
      SelectAppend(a, b[..n], fatesA, fatesB[..n]);
    }
  }

  /** With every stat succeeding, the names are the listing. */
  lemma {:induction false} SelectEverything(listing: seq<Name>, fates: seq<bool>)
    requires |fates| == |listing| && forall i :: 0 <= i < |fates| ==> fates[i]
    ensures Select(listing, fates) == listing
  {
    if listing != [] {
      var n := |listing| - 1;
      SelectEverything(listing[..n], fates[..n]);
    }
  }

  lemma {:induction false} SelectedAreListed(listing: seq<Name>, fates: seq<bool>)
    requires |fates| == |listing|
    ensures forall x :: x in Select(listing, fates) ==> x in listing
  {
    if listing != [] {
      var n := |listing| - 1;
      SelectedAreListed(listing[..n], fates[..n]);
    }
  }

  lemma {:induction false} SelectedByFate(listing: seq<Name>, fates: seq<bool>, i: nat)
    requires |fates| == |listing| && Distinct(listing) && i < |listing|
    ensures listing[i] in Select(listing, fates) <==> fates[i]
  {
    var n := |listing| - 1;
    SelectedAreListed(listing[..n], fates[..n]);
    if i < n {
      assert Distinct(listing[..n]) && listing[i] != listing[n];
      SelectedByFate(listing[..n], fates[..n], i);
    } else {
      assert listing[n] !in listing[..n];
    }
  }

  /** Of a listing without repetitions, each name comes once, and exactly if its fate is true. */
  lemma {:induction false} SelectedOnce(listing: seq<Name>, fates: seq<bool>)
    requires |fates| == |listing| && Distinct(listing)
    ensures Distinct(Select(listing, fates))
    ensures forall i :: 0 <= i < |listing| ==> (listing[i] in Select(listing, fates) <==> fates[i])
    ensures forall x :: x in Select(listing, fates) ==> x in listing
  {
    SelectedAreListed(listing, fates);
    forall i | 0 <= i < |listing| ensures listing[i] in Select(listing, fates) <==> fates[i] {
      SelectedByFate(listing, fates, i);
    }
    if listing != [] {
      var n := |listing| - 1;
      SelectedOnce(listing[..n], fates[..n]);
      assert listing[n] !in listing[..n];
    }
  }

  /**
   What one call does, seen from outside: it moves the cursor from `before` to `after` and returns
   the names passed that can be built, as many as fit; if it then comes to an entry on which it
   raises, it returns nothing.
   */
  ghost predicate Outcome(infoClass: byte, single: bool, bufferLength: nat, stat: Host, listing: seq<Name>,
                          before: nat, after: nat, names: seq<Name>, r: Response)
  {
    && before <= after <= |listing|
    && (forall i :: before <= i < after ==> !RaisesOn(stat(listing[i]), listing[i]))
    && Ends(infoClass, single, bufferLength, stat, listing, before, after, r == Error(Unsuccessful))
    && names == (if r == Error(Unsuccessful) then [] else Buildable(infoClass, stat, listing[before..after]))
    && (r == Error(NoMoreFiles) <==> names == [] && after == |listing|)
    && (r == Error(BufferTooSmall) <==> names == [] && after < |listing| && r != Error(Unsuccessful))
    && (r.Success? <==> names != [])
    && (r.Success? ==> Supported(infoClass) && |r.output| <= bufferLength && Walk(infoClass, r.output) == Some(names))
    && (r.Success? && single ==> |names| == 1)
  }

  /**
   Why a call's loop ends at `after`: the listing does, or one entry was asked for and packed, or the
   next entry raises or finds no room.
   */
  ghost predicate Ends(infoClass: byte, single: bool, bufferLength: nat, stat: Host, listing: seq<Name>,
                       before: nat, after: nat, raised: bool)
    requires before <= after <= |listing|
  {
    var size := BuiltSize(infoClass, stat, listing[before..after]);
    && size <= bufferLength
    && if after == |listing| || (single && Buildable(infoClass, stat, listing[before..after]) != []) then !raised
       else
         var next := BuildEntry(infoClass, stat(listing[after]), listing[after]);
         && (raised <==> RaisesOn(stat(listing[after]), listing[after]))
         && (!raised ==> next.Built? && size + |next.entry| > bufferLength)
  }

  /** One answered call on a scan, with the cursor before and after it. */
  datatype Page = Page(infoClass: byte, single: bool, bufferLength: nat, stat: Host,
                       before: nat, after: nat, names: seq<Name>, r: Response)

  function Cursor(pages: seq<Page>): nat {
    if pages == [] then 0 else pages[|pages| - 1].after
  }

  ghost predicate Answered(listing: seq<Name>, page: Page) {
    Outcome(page.infoClass, page.single, page.bufferLength, page.stat, listing, page.before, page.after, page.names,
            page.r)
  }

  /** One call after another, each starting where the one before it ended. */
  ghost predicate Paged(listing: seq<Name>, pages: seq<Page>) {
    pages == [] ||
    var n := |pages| - 1;
    Paged(listing, pages[..n]) && pages[n].before == Cursor(pages[..n]) && Answered(listing, pages[n])
  }

  /** What becomes of the entries that a call passes: a call that raises loses them all. */
  function CallFates(infoClass: byte, stat: Host, passed: seq<Name>, r: Response): (fates: seq<bool>)
    ensures |fates| == |passed|
  {
    if r == Error(Unsuccessful) then seq(|passed|, _ => false) else Fates(infoClass, stat, passed)
  }

  lemma CallReturns(infoClass: byte, single: bool, bufferLength: nat, stat: Host, listing: seq<Name>,
                    before: nat, after: nat, names: seq<Name>, r: Response)
    requires Outcome(infoClass, single, bufferLength, stat, listing, before, after, names, r)
    ensures before <= after <= |listing| && (r == Error(NoMoreFiles) ==> after == |listing|)
    ensures names == Select(listing[before..after], CallFates(infoClass, stat, listing[before..after], r))
  {
    if r == Error(Unsuccessful) {
      SelectedNone(listing[before..after], CallFates(infoClass, stat, listing[before..after], r));
    }
  }

  /** The fate of an entry is settled by the call that passes it. */
  ghost function PagedFates(listing: seq<Name>, pages: seq<Page>): (fates: seq<bool>)
    requires Paged(listing, pages)
    ensures |fates| == Cursor(pages) <= |listing|
  {
    if pages == [] then []
    else
      var n := |pages| - 1;
      PagedFates(listing, pages[..n])
      + CallFates(pages[n].infoClass, pages[n].stat, listing[pages[n].before..pages[n].after], pages[n].r)
  }

  function Returned(pages: seq<Page>): seq<Name> {
    if pages == [] then [] else Returned(pages[..|pages| - 1]) + pages[|pages| - 1].names
  }

  lemma NoPages(listing: seq<Name>)
    ensures Cursor([]) == 0 && PagedFates(listing, []) == [] && Returned([]) == [] == Select(listing[..0], [])
  {
  }

  lemma LastPage(listing: seq<Name>, pages: seq<Page>)
    requires Paged(listing, pages) && pages != []
    ensures var n, last := |pages| - 1, pages[|pages| - 1];
            && Paged(listing, pages[..n]) && Cursor(pages[..n]) == last.before <= last.after <= |listing|
            && Cursor(pages) == last.after && (last.r == Error(NoMoreFiles) ==> last.after == |listing|)
            && var fates := CallFates(last.infoClass, last.stat, listing[last.before..last.after], last.r);
            && Returned(pages) == Returned(pages[..n]) + Select(listing[last.before..last.after], fates)
            && PagedFates(listing, pages) == PagedFates(listing, pages[..n]) + fates
  {
    hide Select, CallFates, Outcome;
    var last := pages[|pages| - 1];
    assert Answered(listing, last);
    CallReturns(last.infoClass, last.single, last.bufferLength, last.stat, listing, last.before, last.after,
                last.names, last.r);
  }

  /**
   Whatever the buffer sizes, flags and classes of the calls, their responses put together are the
   listing up to the cursor in order, each name once, less those that could not be built when
   reached and those passed by a call that raised; a call answered "no more files" has the cursor at
   the listing's end.
   */
  lemma {:induction false} PagingIsTheListing(listing: seq<Name>, pages: seq<Page>)
    requires Paged(listing, pages)
    ensures Cursor(pages) <= |listing|
    ensures Returned(pages) == Select(listing[..Cursor(pages)], PagedFates(listing, pages))
    ensures pages != [] && pages[|pages| - 1].r == Error(NoMoreFiles) ==> Cursor(pages) == |listing|
  {
    hide *;
    if pages == [] {
      NoPages(listing);
    } else {
      LastPage(listing, pages);
      var n := |pages| - 1;
      var last := pages[n];
      PagingIsTheListing(listing, pages[..n]);
      var passed := listing[last.before..last.after];
      SelectAppend(listing[..last.before], passed, PagedFates(listing, pages[..n]),
                   CallFates(last.infoClass, last.stat, passed, last.r));
      assert listing[..last.before] + passed == listing[..last.after];
    }
  }

  /** Entry `k` is one on which a call raises: the loop comes that far, all before it having found room. */
  ghost predicate Reaches(infoClass: byte, single: bool, bufferLength: nat, stat: Host, listing: seq<Name>,
                          before: nat, k: nat)
  {
    && before <= k < |listing| && RaisesOn(stat(listing[k]), listing[k])
    && (forall i :: before <= i < k ==> !RaisesOn(stat(listing[i]), listing[i]))
    && BuiltSize(infoClass, stat, listing[before..k]) <= bufferLength
    && (single ==> Buildable(infoClass, stat, listing[before..k]) == [])
  }

  /** The cursor stays at the only entry on which the call can raise. */
  lemma StopsAtRaisingEntry(infoClass: byte, single: bool, bufferLength: nat, stat: Host, listing: seq<Name>,
                            before: nat, after: nat, names: seq<Name>, r: Response, k: nat)
    requires Outcome(infoClass, single, bufferLength, stat, listing, before, after, names, r)
    requires Reaches(infoClass, single, bufferLength, stat, listing, before, k)
    ensures k == after && r == Error(Unsuccessful)
  {
    hide Walk, BuiltSize, BuildEntry, Select;
    if after < k {
      BuildableGrows(infoClass, stat, listing, before, after, k);
      BuiltSizeGrows(infoClass, stat, listing, before, after + 1, k);
      BuiltOneMore(infoClass, stat, listing, before, after);
    }
  }

  lemma BuiltOneMore(infoClass: byte, stat: Host, listing: seq<Name>, start: nat, here: nat)
    requires start <= here < |listing|
    ensures var next, size := BuildEntry(infoClass, stat(listing[here]), listing[here]),
                              BuiltSize(infoClass, stat, listing[start..here]);
            BuiltSize(infoClass, stat, listing[start..here + 1]) == size + if next.Built? then |next.entry| else 0
  {
    hide BuildEntry;
    var longer := listing[start..here + 1];
    assert longer[..|longer| - 1] == listing[start..here] && longer[|longer| - 1] == listing[here];
  }

  lemma BuildableGrows(infoClass: byte, stat: Host, listing: seq<Name>, from: nat, mid: nat, to: nat)
    requires from <= mid <= to <= |listing|
    ensures Buildable(infoClass, stat, listing[from..to]) == [] ==> Buildable(infoClass, stat, listing[from..mid]) == []
  {
    var a, b := listing[from..mid], listing[mid..to];
    assert listing[from..to] == a + b;
    assert Fates(infoClass, stat, a + b) == Fates(infoClass, stat, a) + Fates(infoClass, stat, b);
    SelectAppend(a, b, Fates(infoClass, stat, a), Fates(infoClass, stat, b));
  }

  /**
   Exactly when a call loses names it has packed: it comes to an entry on which it raises, and has
   packed something before.  In every other case it returns all that it packs.
   */
  lemma LosesPackedNamesExactlyWhenRaising(infoClass: byte, single: bool, bufferLength: nat, stat: Host,
                                           listing: seq<Name>, before: nat, after: nat, names: seq<Name>, r: Response)
    requires Outcome(infoClass, single, bufferLength, stat, listing, before, after, names, r)
    ensures names != Buildable(infoClass, stat, listing[before..after])
            <==> exists k: nat :: Reaches(infoClass, single, bufferLength, stat, listing, before, k)
                                  && Buildable(infoClass, stat, listing[before..k]) != []
    ensures r == Error(Unsuccessful)
            <==> exists k: nat :: Reaches(infoClass, single, bufferLength, stat, listing, before, k)
  {
    hide Walk, BuiltSize, BuildEntry, Buildable;
    if r == Error(Unsuccessful) {
      assert Reaches(infoClass, single, bufferLength, stat, listing, before, after);
    }
    forall k: nat | Reaches(infoClass, single, bufferLength, stat, listing, before, k)
      ensures k == after && r == Error(Unsuccessful)
    {
      StopsAtRaisingEntry(infoClass, single, bufferLength, stat, listing, before, after, names, r, k);
    }
    hide Reaches, Ends;
  }

  /** A call raises at once if it finds the cursor at an entry on which it raises. */
  lemma RaisesAtOnce(infoClass: byte, single: bool, bufferLength: nat, stat: Host, listing: seq<Name>,
                     before: nat, after: nat, names: seq<Name>, r: Response)
    requires Outcome(infoClass, single, bufferLength, stat, listing, before, after, names, r)
    ensures before < |listing| && RaisesOn(stat(listing[before]), listing[before])
            ==> r == Error(Unsuccessful) && after == before
    ensures r == Error(Unsuccessful) ==> after < |listing| && names == []
  {
  }

  ghost predicate RaisesAt(page: Page, listing: seq<Name>, at: nat) {
    at < |listing| && RaisesOn(page.stat(listing[at]), listing[at])
  }

  lemma {:induction false} PagedAt(listing: seq<Name>, pages: seq<Page>, j: nat)
    requires Paged(listing, pages) && j < |pages|
    ensures Answered(listing, pages[j]) && (j > 0 ==> pages[j].before == pages[j - 1].after)
  {
    hide Answered;
    var n := |pages| - 1;
    if j < n {
      PagedAt(listing, pages[..n], j);
    }
  }

  lemma PageRaises(listing: seq<Name>, pages: seq<Page>, j: nat)
    requires Paged(listing, pages) && j < |pages|
    ensures var page := pages[j];
            && (RaisesAt(page, listing, page.before) ==> page.r == Error(Unsuccessful) && page.after == page.before)
            && (page.r == Error(Unsuccessful) ==> page.names == [])
            && (j > 0 ==> page.before == pages[j - 1].after)
  {
    hide Outcome, BuildEntry;
    PagedAt(listing, pages, j);
    hide Paged;
    var page := pages[j];
    RaisesAtOnce(page.infoClass, page.single, page.bufferLength, page.stat, listing, page.before, page.after,
                 page.names, page.r);
  }

  /** As long as the entry raises on which a call has raised, no later call on the scan gets past it. */
  lemma {:induction false} RaisingEntryBlocks(listing: seq<Name>, pages: seq<Page>, i: nat, j: nat)
    requires Paged(listing, pages) && i <= j < |pages| && pages[i].r == Error(Unsuccessful)
    requires forall k :: i < k <= j ==> RaisesAt(pages[k], listing, pages[i].after)
    ensures pages[j].r == Error(Unsuccessful) && pages[j].after == pages[i].after && pages[j].names == []
  {
    hide *;
    PageRaises(listing, pages, j);
    if i < j {
      RaisingEntryBlocks(listing, pages, i, j - 1);
    }
  }

  lemma PassedIsReturned(infoClass: byte, single: bool, bufferLength: nat, stat: Host, listing: seq<Name>,
                         before: nat, after: nat, names: seq<Name>, r: Response, i: nat)
    requires Outcome(infoClass, single, bufferLength, stat, listing, before, after, names, r)
    requires Supported(infoClass) && r != Error(Unsuccessful)
    requires before <= i < after && stat(listing[i]).Found?
    ensures listing[i] in names
  {
    hide Select, Walk, Ends, Supported;
    var passed := listing[before..after];
    SelectedIn(passed, Fates(infoClass, stat, passed));
    assert passed[i - before] == listing[i];
  }

  /**
   A call loses an entry that it passes and that is there, if and only if it passes one and either its
   information class is not supported or it raises in the end.
   */
  lemma LosesNamesExactlyWhenUnsupported(infoClass: byte, single: bool, bufferLength: nat, stat: Host,
                                         listing: seq<Name>, before: nat, after: nat, names: seq<Name>, r: Response)
    requires Outcome(infoClass, single, bufferLength, stat, listing, before, after, names, r)
    ensures (exists i :: before <= i < after && stat(listing[i]).Found? && listing[i] !in names)
            <==> && (exists i :: before <= i < after && stat(listing[i]).Found?)
                 && (!Supported(infoClass) || r == Error(Unsuccessful))
  {
    hide Select, Walk, Ends, Supported, BuildEntry;
    if Supported(infoClass) && r != Error(Unsuccessful) {
      forall i | before <= i < after && stat(listing[i]).Found? ensures listing[i] in names {
        PassedIsReturned(infoClass, single, bufferLength, stat, listing, before, after, names, r, i);
      }
    } else {
      if r != Error(Unsuccessful) {
        UnsupportedClassUsesUpTheListing(infoClass, single, bufferLength, stat, listing, before, after, names, r);
      }
      assert names == [];
    }
  }

  /**
   A call of an unsupported class packs nothing; unless there is an entry left on which it raises, it
   passes everything that is left and says that there are no more files.
   */
  lemma UnsupportedClassUsesUpTheListing(infoClass: byte, single: bool, bufferLength: nat, stat: Host,
                                         listing: seq<Name>, before: nat, after: nat, names: seq<Name>, r: Response)
    requires Outcome(infoClass, single, bufferLength, stat, listing, before, after, names, r) && !Supported(infoClass)
    ensures names == []
    ensures if exists k :: before <= k < |listing| && RaisesOn(stat(listing[k]), listing[k])
            then r == Error(Unsuccessful)
            else r == Error(NoMoreFiles) && after == |listing|
  {
    hide Walk, Select;
  }

  lemma {:induction false} SelectedIn(listing: seq<Name>, fates: seq<bool>)
    requires |fates| == |listing|
    ensures forall i :: 0 <= i < |listing| && fates[i] ==> listing[i] in Select(listing, fates)
  {
    if listing != [] {
      var n := |listing| - 1;
      SelectedIn(listing[..n], fates[..n]);
      forall i | 0 <= i < |listing| && fates[i] ensures listing[i] in Select(listing, fates) {
        if i < n {
          assert listing[..n][i] == listing[i];
        }
      }
    }
  }

  lemma {:induction false} SelectedNone(listing: seq<Name>, fates: seq<bool>)
    requires |fates| == |listing| && forall i :: 0 <= i < |fates| ==> !fates[i]
    ensures Select(listing, fates) == []
  {
    if listing != [] {
      var n := |listing| - 1;
      SelectedNone(listing[..n], fates[..n]);
    }
  }

  lemma DotsDoNotRaise(infoClass: byte, probe: Probe, name: Name)
    requires name in {DOT, DOT_DOT} && probe.Found?
    ensures var build := BuildEntry(infoClass, probe, name);
            if Supported(infoClass) then build.Built? && |build.entry| < 120 else build == Skipped
  {
    hide Entry;
    assert Utf16.Encodable(DOT) && Utf16.Encodable(DOT_DOT);
  }

  lemma LoneSurrogateRaises(infoClass: byte, probe: Probe, name: Name)
    requires name == [0x80, 0xDC] && probe.Found?
    ensures BuildEntry(infoClass, probe, name) == Raised
  {
    assert !Utf16.Encodable([0x80, 0xDC]);
  }

  lemma TwoDotsFit(infoClass: byte, stat: Host, dots: seq<Name>)
    requires dots == [DOT_DOT, DOT] && stat(DOT).Found? && stat(DOT_DOT).Found?
    ensures BuiltSize(infoClass, stat, dots) <= 240
  {
    DotsDoNotRaise(infoClass, stat(DOT), DOT);
    DotsDoNotRaise(infoClass, stat(DOT_DOT), DOT_DOT);
    NothingFilled(infoClass, stat, dots, 0);
    BuiltOneMore(infoClass, stat, dots, 0, 0);
    BuiltOneMore(infoClass, stat, dots, 0, 1);
    hide *;
    assert dots[0..2] == dots;
  }

  lemma TwoDots(infoClass: byte, stat: Host, dots: seq<Name>)
    requires dots == [DOT_DOT, DOT] && stat(DOT).Found? && stat(DOT_DOT).Found?
    ensures forall i :: 0 <= i < 2 ==> !BuildEntry(infoClass, stat(dots[i]), dots[i]).Raised?
    ensures Buildable(infoClass, stat, dots) == if Supported(infoClass) then dots else []
  {
    hide BuildEntry, Supported, Select;
    DotsDoNotRaise(infoClass, stat(DOT), DOT);
    DotsDoNotRaise(infoClass, stat(DOT_DOT), DOT_DOT);
    var fates := Fates(infoClass, stat, dots);
    if Supported(infoClass) {
      SelectEverything(dots, fates);
    } else {
      SelectedNone(dots, fates);
    }
  }

  lemma NameAfterDotsIsReached(stat: Host, listing: seq<Name>)
    requires listing == [DOT_DOT, DOT, [0x80, 0xDC]] && forall name :: name in listing ==> stat(name).Found?
    ensures Reaches(FILE_NAMES_INFORMATION, false, 1000, stat, listing, 0, 2)
  {
    var dots := listing[0..2];
    TwoDots(FILE_NAMES_INFORMATION, stat, dots);
    TwoDotsFit(FILE_NAMES_INFORMATION, stat, dots);
    LoneSurrogateRaises(FILE_NAMES_INFORMATION, stat(listing[2]), listing[2]);
    hide BuildEntry, BuiltSize, Buildable;
    assert forall i :: 0 <= i < 2 ==> dots[i] == listing[i];
  }

  /**
   A query of class 2 finds neither "." nor ".."; one with room for both finds neither if a name
   follows that is not UTF-8.
   */
  lemma NamesAreLost(stat: Host, after: nat, names: seq<Name>, r: Response)
    requires forall name: Name :: stat(name).Found?
    ensures Outcome(2, false, 1000, stat, [DOT_DOT, DOT], 0, after, names, r)
            ==> names == [] && after == 2 && r == Error(NoMoreFiles)
    ensures Outcome(FILE_NAMES_INFORMATION, false, 1000, stat, [DOT_DOT, DOT, [0x80, 0xDC]], 0, after, names, r)
            ==> names == [] && after == 2 && r == Error(Unsuccessful)
    ensures Buildable(FILE_NAMES_INFORMATION, stat, [DOT_DOT, DOT]) == [DOT_DOT, DOT]
  {
    var dots: seq<Name>, more: seq<Name> := [DOT_DOT, DOT], [DOT_DOT, DOT, [0x80, 0xDC]];
    TwoDots(2, stat, dots);
    TwoDots(FILE_NAMES_INFORMATION, stat, dots);
    NameAfterDotsIsReached(stat, more);
    hide Outcome, BuildEntry, Reaches, Walk, Buildable, BuiltSize;
    if Outcome(2, false, 1000, stat, dots, 0, after, names, r) {
      UnsupportedClassUsesUpTheListing(2, false, 1000, stat, dots, 0, after, names, r);
    }
    if Outcome(FILE_NAMES_INFORMATION, false, 1000, stat, more, 0, after, names, r) {
      StopsAtRaisingEntry(FILE_NAMES_INFORMATION, false, 1000, stat, more, 0, after, names, r, 2);
      RaisesAtOnce(FILE_NAMES_INFORMATION, false, 1000, stat, more, 0, after, names, r);
    }
  }

  lemma BuildableOneMore(infoClass: byte, stat: Host, listing: seq<Name>, start: nat, here: nat)
    requires start <= here < |listing|
    ensures Buildable(infoClass, stat, listing[start..here + 1])
            == Buildable(infoClass, stat, listing[start..here])
               + if BuildEntry(infoClass, stat(listing[here]), listing[here]).Built? then [listing[here]] else []
  {
    hide Entry;
    var longer := listing[start..here + 1];
    var n := |longer| - 1;
    var fates := Fates(infoClass, stat, longer);
    assert longer[..n] == listing[start..here] && longer[n] == listing[here];
    assert fates[..n] == Fates(infoClass, stat, longer[..n]);
  }

  /** A call's packed entries: as many as fit from the names passed, in order. */
  ghost predicate Filled(infoClass: byte, single: bool, bufferLength: nat, stat: Host, listing: seq<Name>,
                         before: nat, after: nat, raised: bool, entries: seq<seq<byte>>)
  {
    && before <= after <= |listing|
    && (forall i :: before <= i < after ==> !RaisesOn(stat(listing[i]), listing[i]))
    && AreEntries(infoClass, stat, Buildable(infoClass, stat, listing[before..after]), entries)
    && TotalSize(entries) == BuiltSize(infoClass, stat, listing[before..after])
    && (single ==> |entries| <= 1)
    && Ends(infoClass, single, bufferLength, stat, listing, before, after, raised)
  }

  lemma NoEntries(infoClass: byte, stat: Host)
    ensures AreEntries(infoClass, stat, [], [])
  {
  }

  lemma OneMoreEntry(infoClass: byte, stat: Host, names: seq<Name>, entries: seq<seq<byte>>, name: Name,
                     entry: seq<byte>)
    requires AreEntries(infoClass, stat, names, entries) && BuildEntry(infoClass, stat(name), name) == Built(entry)
    ensures AreEntries(infoClass, stat, names + [name], entries + [entry])
  {
    hide BuildEntry;
  }

  lemma NoFates(infoClass: byte, stat: Host)
    ensures Fates(infoClass, stat, []) == [] && Buildable(infoClass, stat, []) == []
  {
  }

  lemma NothingFilled(infoClass: byte, stat: Host, listing: seq<Name>, start: nat)
    requires start <= |listing|
    ensures Buildable(infoClass, stat, listing[start..start]) == []
    ensures BuiltSize(infoClass, stat, listing[start..start]) == 0 == TotalSize([])
  {
  }

  lemma FilledResponse(infoClass: byte, single: bool, bufferLength: nat, stat: Host, listing: seq<Name>,
                       before: nat, after: nat, raised: bool, entries: seq<seq<byte>>)
    requires Filled(infoClass, single, bufferLength, stat, listing, before, after, raised, entries)
    ensures forall e :: e in entries ==> 4 <= |e| < 0x1_0000_0000
    ensures Outcome(infoClass, single, bufferLength, stat, listing, before, after,
                    if raised then [] else Buildable(infoClass, stat, listing[before..after]),
                    if raised then Error(Unsuccessful)
                    else if entries != [] then Success(Chained(entries))
                    else Error(if after < |listing| then BufferTooSmall else NoMoreFiles))
  {
    hide Buildable, BuiltSize, Entry, BuildEntry, Walk;
    if entries != [] {
      WalkChained(infoClass, stat, Buildable(infoClass, stat, listing[before..after]), entries);
      ChainedLength(entries);
    }
  }

  class DirectoryHandle {
    const isDir: bool
    var dirEntries: Option<seq<Name>>
    var dirOffset: nat
    var scandirCache: set<Name>
    /** What has become of each entry before the cursor since the last scan, and the names returned. */
    ghost var fates: seq<bool>
    ghost var emitted: seq<Name>

    /** Since the last scan the calls together have returned the listing up to the cursor, in order. */
    ghost predicate Valid()
      reads this
    {
      match dirEntries
      case None => dirOffset == 0 && fates == [] && emitted == []
      case Some(listing) =>
        && dirOffset <= |listing| && |fates| == dirOffset
        && emitted == Select(listing[..dirOffset], fates)
        && forall name :: name in listing ==> name in {DOT, DOT_DOT} || name in scandirCache
    }

    constructor (isDir: bool)
      ensures Valid() && this.isDir == isDir && dirEntries == None
    {
      this.isDir := isDir;
      dirEntries, dirOffset, scandirCache := None, 0, {};
      fates, emitted := [], [];
    }

    /** The entries from the cursor on that fit into the buffer; `raised` if building one raises. */
    method Fill(infoClass: byte, single: bool, bufferLength: uint32, stat: Host)
      returns (entries: seq<seq<byte>>, tooSmall: bool, raised: bool)
      requires Valid() && dirEntries.Some?
      modifies `dirOffset
      ensures Filled(infoClass, single, bufferLength, stat, dirEntries.value, old(dirOffset), dirOffset, raised,
                     entries)
      ensures tooSmall <==> entries == [] && dirOffset < |dirEntries.value| && !raised
    {
      NoEntries(infoClass, stat);
      hide Buildable, Fates, BuiltSize, Entry, TotalSize, BuildEntry, RaisesOn, Supported;
      entries, tooSmall, raised := [], false, false;
      var totalSize := 0;
      ghost var start, listing := dirOffset, dirEntries.value;
      NothingFilled(infoClass, stat, listing, start);
      while dirOffset < |dirEntries.value|
        invariant dirEntries == Some(listing) && start <= dirOffset <= |listing|
        invariant forall i :: start <= i < dirOffset ==> !RaisesOn(stat(listing[i]), listing[i])
        invariant AreEntries(infoClass, stat, Buildable(infoClass, stat, listing[start..dirOffset]), entries)
        invariant totalSize == TotalSize(entries) == BuiltSize(infoClass, stat, listing[start..dirOffset])
        invariant totalSize <= bufferLength
        invariant single ==> entries == []
        invariant entries == [] <==> Buildable(infoClass, stat, listing[start..dirOffset]) == []
        decreases |listing| - dirOffset
      {
        var entryName := dirEntries.value[dirOffset];
        // The scan that listed the name has cached it, so the lookup cannot miss.
        assert entryName in {DOT, DOT_DOT} || entryName in scandirCache;
        var entryData := BuildEntry(infoClass, stat(entryName), entryName);
        BuildableOneMore(infoClass, stat, listing, start, dirOffset);
        BuiltOneMore(infoClass, stat, listing, start, dirOffset);
        if entryData.Raised? {
          raised := true;
          break;
        }
        if entryData.Skipped? {
          dirOffset := dirOffset + 1;
          continue;
        }
        if totalSize + |entryData.entry| > bufferLength {
          tooSmall := entries == [];
          break;
        }
        TotalSizeAppend(entries, entryData.entry);
        OneMoreEntry(infoClass, stat, Buildable(infoClass, stat, listing[start..dirOffset]), entries, entryName,
                     entryData.entry);
        entries := entries + [entryData.entry];
        totalSize := totalSize + |entryData.entry|;
        dirOffset := dirOffset + 1;
        if single {
          break;
        }
      }
    }

    /** Keeps the record of what the calls since the last scan have returned. */
    ghost method Record(listing: seq<Name>, before: nat, names: seq<Name>, passedFates: seq<bool>)
      requires dirEntries == Some(listing) && before <= dirOffset <= |listing| && |fates| == before
      requires emitted == Select(listing[..before], fates)
      requires |passedFates| == dirOffset - before && names == Select(listing[before..dirOffset], passedFates)
      modifies `fates, `emitted
      ensures emitted == old(emitted) + names && fates == old(fates) + passedFates
      ensures |fates| == dirOffset && emitted == Select(listing[..dirOffset], fates)
    {
      var passed := listing[before..dirOffset];
      SelectAppend(listing[..before], passed, fates, passedFates);
      assert listing[..before] + passed == listing[..dirOffset];
      emitted := emitted + names;
      fates := fates + passedFates;
    }

    /** The answer once there is a listing: the entries from the cursor on, as many as fit. */
    method Answer(infoClass: byte, single: bool, bufferLength: uint32, stat: Host)
      returns (r: Response, ghost names: seq<Name>)
      requires Valid() && dirEntries.Some?
      modifies `dirOffset, `fates, `emitted
      ensures Valid()
      ensures Outcome(infoClass, single, bufferLength, stat, dirEntries.value, old(dirOffset), dirOffset, names, r)
      ensures emitted == old(emitted) + names
      ensures fates == old(fates) + CallFates(infoClass, stat, dirEntries.value[old(dirOffset)..dirOffset], r)
    {
      hide Select, Fates, CallFates, Filled, AreEntries, Walk, Chained;
      ghost var listing, before := dirEntries.value, dirOffset;
      names := [];
      if dirOffset >= |dirEntries.value| {
        r := Error(NoMoreFiles);
        NothingFilled(infoClass, stat, listing, before);
        assert listing[before..before] == [];
      } else {
        var entries, tooSmall, raised := Fill(infoClass, single, bufferLength, stat);
        FilledResponse(infoClass, single, bufferLength, stat, listing, before, dirOffset, raised, entries);
        if raised {
          r := Error(Unsuccessful);
        } else if tooSmall {
          r := Error(BufferTooSmall);
        } else if entries == [] {
          r := Error(NoMoreFiles);
        } else {
          var output := ChainEntries(entries);
          r := Success(output);
        }
        names := if raised then [] else Buildable(infoClass, stat, listing[before..dirOffset]);
      }
      CallReturns(infoClass, single, bufferLength, stat, listing, before, dirOffset, names, r);
      hide Outcome;
      Record(listing, before, names, CallFates(infoClass, stat, listing[before..dirOffset], r));
    }

    method QueryDirectory(infoClass: byte, restart: bool, single: bool, bufferLength: uint32,
                          scan: Option<seq<Name>>, stat: Host)
      returns (r: Response, ghost names: seq<Name>)
      requires Valid()
      modifies this
      ensures Valid()
      ensures var rescan := isDir && (old(dirEntries).None? || restart);
              var begun := isDir && (rescan ==> scan.Some?);
              && (!isDir ==> r == Error(InvalidParameter))
              && (rescan && scan.None? ==> r == Error(ObjectNameNotFound))
              && (!begun ==> names == [] && dirEntries == old(dirEntries) && dirOffset == old(dirOffset)
                             && emitted == old(emitted) && fates == old(fates))
              && (begun ==>
                    var before := if rescan then 0 else old(dirOffset);
                    && dirEntries == (if rescan then Some([DOT_DOT, DOT] + scan.value) else old(dirEntries))
                    && Outcome(infoClass, single, bufferLength, stat, dirEntries.value, before, dirOffset, names, r)
                    && emitted == (if rescan then [] else old(emitted)) + names
                    && fates == (if rescan then [] else old(fates))
                                + CallFates(infoClass, stat, dirEntries.value[before..dirOffset], r))
    {
      names := [];
      if !isDir {
        return Error(InvalidParameter), names;
      }
      if dirEntries.None? || restart {
        if scan.None? {
          return Error(ObjectNameNotFound), names;
        }
        dirEntries := Some([DOT_DOT, DOT] + scan.value);
        scandirCache := set name | name in scan.value;
        dirOffset := 0;
        fates, emitted := [], [];
        assert dirEntries.value[..0] == [];
      }
      hide Outcome, CallFates, Select;
      r, names := Answer(infoClass, single, bufferLength, stat);
    }
  }
}
