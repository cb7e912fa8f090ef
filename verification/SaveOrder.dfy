/**
 What a stack of disk layers denotes, and what saving it under numbered names and loading it in
 sorted order does to that meaning.
 */
module SaveOrder {
  import opened Sequences
  import opened Text

  // ---------------------------------------------------------------------------------------------
  // Disks
  // ---------------------------------------------------------------------------------------------

  type Sector = int

  /** The sectors a layer holds itself. */
  type Layer = map<nat, Sector>

  /** The guest reads a sector from the topmost layer that holds it. */
  function Read(layers: seq<Layer>, at: nat): Sector {
    if layers == [] then 0
    else
      var top := layers[|layers| - 1];
      if at in top then top[at] else Read(layers[..|layers| - 1], at)
  }

  ghost predicate SameDisk(a: seq<Layer>, b: seq<Layer>) {
    forall at :: Read(a, at) == Read(b, at)
  }

  lemma {:induction false} ReadAppend(below: seq<Layer>, above: seq<Layer>, at: nat)
    ensures Read(below + above, at) ==
            if exists k :: 0 <= k < |above| && at in above[k] then Read(above, at) else Read(below, at)
  {
    if above == [] {
      assert below + above == below;
    } else {
      var n := |above| - 1;
      assert (below + above)[..|below| + n] == below + above[..n];
      ReadAppend(below, above[..n], at);
    }
  }

  /** An empty overlay on top reads through. */
  lemma FreshOverlayKeepsDisk(layers: seq<Layer>)
    ensures SameDisk(layers + [map[]], layers)
  {
    assert (layers + [map[]])[..|layers|] == layers;
  }

  lemma SameBelow(a: seq<Layer>, b: seq<Layer>, above: seq<Layer>)
    requires SameDisk(a, b)
    ensures SameDisk(a + above, b + above)
  {
    forall at: nat ensures Read(a + above, at) == Read(b + above, at) {
      ReadAppend(a, above, at);
      ReadAppend(b, above, at);
    }
  }

  /**
   What `qemu-img convert -B` may write for a layer over a backing: nothing but what the layer
   holds, and all of it that the backing does not show already.
   */
  ghost predicate Packs(packed: Layer, data: Layer, below: seq<Layer>) {
    && (forall at :: at in packed ==> at in data && packed[at] == data[at])
    && (forall at :: at in data && at !in packed ==> data[at] == Read(below, at))
  }

  /** The least that may be written; the most is the layer itself. */
  function Compressed(data: Layer, below: seq<Layer>): Layer {
    map at | at in data && data[at] != Read(below, at) :: data[at]
  }

  lemma LeastAndMost(data: Layer, below: seq<Layer>)
    ensures Packs(Compressed(data, below), data, below) && Packs(data, data, below)
  {
  }

  lemma PackedReadsTheSame(below: seq<Layer>, data: Layer, packed: Layer)
    requires Packs(packed, data, below)
    ensures SameDisk(below + [packed], below + [data])
  {
    assert (below + [packed])[..|below|] == below && (below + [data])[..|below|] == below;
  }

  /** Every layer packed against the true stack below it. */
  ghost predicate PacksStack(own: seq<Layer>, below: seq<Layer>, layers: seq<Layer>) {
    |own| == |layers| && forall i :: 0 <= i < |layers| ==> Packs(own[i], layers[i], below + layers[..i])
  }

  lemma PacksStackOneMore(own: seq<Layer>, below: seq<Layer>, layers: seq<Layer>)
    requires |own| == |layers| > 0
    ensures var n := |layers| - 1;
            PacksStack(own, below, layers)
            <==> PacksStack(own[..n], below, layers[..n]) && Packs(own[n], layers[n], below + layers[..n])
  {
    hide Packs;
    var n := |layers| - 1;
    assert forall i :: 0 <= i < n ==> layers[..n][..i] == layers[..i];
    if PacksStack(own[..n], below, layers[..n]) && Packs(own[n], layers[n], below + layers[..n]) {
      forall i | 0 <= i < |layers| ensures Packs(own[i], layers[i], below + layers[..i]) {
        assert i < n ==> Packs(own[..n][i], layers[..n][i], below + layers[..n][..i]);
      }
    }
  }

  lemma {:induction false} PackedStackKeepsDisk(own: seq<Layer>, below: seq<Layer>, layers: seq<Layer>)
    requires PacksStack(own, below, layers)
    ensures SameDisk(below + own, below + layers)
  {
    if layers != [] {
      var n := |layers| - 1;
      PacksStackOneMore(own, below, layers);
      PackedStackKeepsDisk(own[..n], below, layers[..n]);
      SameBelow(below + own[..n], below + layers[..n], [own[n]]);
      PackedReadsTheSame(below + layers[..n], layers[n], own[n]);
      assert below + own == below + own[..n] + [own[n]];
      assert below + layers == below + layers[..n] + [layers[n]];
    }
  }

  // ---------------------------------------------------------------------------------------------
  // File names and their order
  // ---------------------------------------------------------------------------------------------

  function Name(i: nat): string {
    Decimal(i) + ".qcow2"
  }

  /** Character by character, a prefix first. */
  predicate Less(a: string, b: string) {
    b != "" && (a == "" || a[0] < b[0] || (a[0] == b[0] && Less(a[1..], b[1..])))
  }

  lemma {:induction false} LessIsTotal(a: string, b: string)
    ensures Less(a, b) || Less(b, a) || a == b
    ensures !(Less(a, b) && Less(b, a)) && !Less(a, a)
  {
    if a != "" {
      LessIsTotal(a[1..], a[1..]);
      if b != "" {
        LessIsTotal(a[1..], b[1..]);
        assert a[0] == b[0] && a[1..] == b[1..] ==> a == b by {
          assert a == [a[0]] + a[1..] && b == [b[0]] + b[1..];
        }
      }
    }
  }

  lemma {:induction false} LessIsTransitive(a: string, b: string, c: string)
    requires Less(a, b) && Less(b, c)
    ensures Less(a, c)
  {
    if a != "" && a[0] == b[0] == c[0] {
      LessIsTransitive(a[1..], b[1..], c[1..]);
    }
  }

  ghost predicate Sorted(names: seq<string>) {
    forall i, j :: 0 <= i < j < |names| ==> Less(names[i], names[j])
  }

  function Insert(x: string, names: seq<string>): seq<string> {
    if names == [] then [x]
    else if Less(x, names[0]) then [x] + names
    else [names[0]] + Insert(x, names[1..])
  }

  function Sort(names: seq<string>): seq<string> {
    if names == [] then [] else Insert(names[0], Sort(names[1..]))
  }

  ghost predicate SameNames(a: seq<string>, b: seq<string>) {
    forall x :: x in a <==> x in b
  }

  lemma TailNames(a: seq<string>)
    requires Sorted(a) && a != []
    ensures Sorted(a[1..]) && forall x :: x in a[1..] <==> x in a && x != a[0]
  {
    assert a == [a[0]] + a[1..];
    forall i, j | 0 <= i < j < |a[1..]| ensures Less(a[1..][i], a[1..][j]) {
      assert Less(a[i + 1], a[j + 1]);
    }
    forall i | 0 <= i < |a[1..]| ensures a[1..][i] != a[0] {
      assert Less(a[0], a[i + 1]);
      LessIsTotal(a[0], a[0]);
    }
  }

  lemma {:induction false} InsertSorts(x: string, names: seq<string>)
    requires Sorted(names) && x !in names
    ensures Sorted(Insert(x, names)) && |Insert(x, names)| == |names| + 1
    ensures forall y :: y in Insert(x, names) <==> y == x || y in names
  {
    if names != [] {
      assert names == [names[0]] + names[1..];
      LessIsTotal(x, names[0]);
      if Less(x, names[0]) {
        forall i | 0 <= i < |names| ensures Less(x, names[i]) {
          if i > 0 {
            LessIsTransitive(x, names[0], names[i]);
          }
        }
      } else {
        TailNames(names);
        InsertSorts(x, names[1..]);
        var rest := Insert(x, names[1..]);
        forall j | 0 <= j < |rest| ensures Less(names[0], rest[j]) {
          assert rest[j] in rest;
          if rest[j] != x {
            var k :| 0 <= k < |names[1..]| && names[1..][k] == rest[j];
            assert Less(names[0], names[k + 1]);
          }
        }
      }
    }
  }

  lemma {:induction false} SortSorts(names: seq<string>)
    requires Distinct(names)
    ensures Sorted(Sort(names)) && SameNames(Sort(names), names) && |Sort(names)| == |names|
  {
    if names != [] {
      assert Distinct(names[1..]) by {
        forall i, j | 0 <= i < j < |names[1..]| ensures names[1..][i] != names[1..][j] {
          assert names[i + 1] != names[j + 1];
        }
      }
      assert names[0] !in names[1..];
      SortSorts(names[1..]);
      InsertSorts(names[0], Sort(names[1..]));
      assert names == [names[0]] + names[1..];
    }
  }

  lemma HeadsAgree(a: seq<string>, b: seq<string>)
    requires Sorted(a) && Sorted(b) && a != [] && b != [] && a[0] in b && b[0] in a
    ensures a[0] == b[0]
  {
    LessIsTotal(a[0], b[0]);
  }

  /** Sorting has one answer. */
  lemma {:induction false} SortedIsUnique(a: seq<string>, b: seq<string>)
    requires Sorted(a) && Sorted(b) && SameNames(a, b)
    ensures a == b
  {
    assert forall i :: 0 <= i < |a| ==> a[i] in b;
    assert forall i :: 0 <= i < |b| ==> b[i] in a;
    if a != [] {
      HeadsAgree(a, b);
      TailNames(a);
      TailNames(b);
      SortedIsUnique(a[1..], b[1..]);
      assert a == [a[0]] + a[1..] && b == [b[0]] + b[1..];
    }
  }

  /** The names a save of `n` layers uses, bottom to top. */
  function SaveNames(n: nat): seq<string> {
    seq(n, i requires 0 <= i < n => Name(i))
  }

  lemma NamesAreDistinct(i: nat, j: nat)
    ensures Name(i) == Name(j) ==> i == j
  {
    DecimalValue(i);
    DecimalValue(j);
    if Name(i) == Name(j) {
      assert Name(i)[..|Decimal(i)|] == Decimal(i) && Name(j)[..|Decimal(j)|] == Decimal(j);
    }
  }

  lemma SaveNamesAreDistinct(n: nat)
    ensures Distinct(SaveNames(n))
  {
    forall i, j | 0 <= i < j < n ensures Name(i) != Name(j) {
      NamesAreDistinct(i, j);
    }
  }

  lemma TenComesBeforeTwo()
    ensures Name(2) == "2.qcow2" && Name(10) == "10.qcow2"
    ensures Less(Name(10), Name(2)) && !Less(Name(2), Name(10))
  {
    assert Decimal(10) == "10" && Decimal(2) == "2";
    LessIsTotal(Name(2), Name(10));
  }

  /** Numeric order is sorted order for up to ten layers and for no more. */
  lemma NamesSortedExactlyUpToTen(n: nat)
    ensures Sorted(SaveNames(n)) <==> n <= 10
  {
    if n <= 10 {
      forall i, j | 0 <= i < j < n ensures Less(Name(i), Name(j)) {
        assert Decimal(i) == [Digit(i)] && Decimal(j) == [Digit(j)];
      }
    } else {
      TenComesBeforeTwo();
      assert !Less(SaveNames(n)[2], SaveNames(n)[10]);
    }
  }

  // ---------------------------------------------------------------------------------------------
  // Saving and loading a stack
  // ---------------------------------------------------------------------------------------------

  function SavedAs(layers: seq<Layer>): map<string, Layer> {
    if layers == [] then map[]
    else SavedAs(layers[..|layers| - 1])[Name(|layers| - 1) := layers[|layers| - 1]]
  }

  lemma {:induction false} SavedAsMeaning(layers: seq<Layer>)
    ensures forall x :: x in SavedAs(layers) <==> x in SaveNames(|layers|)
    ensures forall i :: 0 <= i < |layers| ==> Name(i) in SavedAs(layers) && SavedAs(layers)[Name(i)] == layers[i]
  {
    if layers != [] {
      var n := |layers| - 1;
      SavedAsMeaning(layers[..n]);
      assert SaveNames(|layers|) == SaveNames(n) + [Name(n)];
      forall i | 0 <= i < n ensures Name(i) != Name(n) {
        NamesAreDistinct(i, n);
      }
    }
  }

  /** Any directory listing of a save: its files, each once, in no particular order. */
  ghost predicate Lists(listing: seq<string>, saved: map<string, Layer>) {
    Distinct(listing) && forall x :: x in listing <==> x in saved
  }

  function Pick(saved: map<string, Layer>, names: seq<string>): seq<Layer>
    requires forall x :: x in names ==> x in saved
  {
    seq(|names|, i requires 0 <= i < |names| => saved[names[i]])
  }

  function Loaded(saved: map<string, Layer>, listing: seq<string>): seq<Layer>
    requires Lists(listing, saved)
  {
    SortSorts(listing);
    Pick(saved, Sort(listing))
  }

  /** With at most ten layers the load order is the save order. */
  lemma LoadedInOrder(layers: seq<Layer>, listing: seq<string>)
    requires |layers| <= 10 && Lists(listing, SavedAs(layers))
    ensures Sort(listing) == SaveNames(|layers|)
    ensures Loaded(SavedAs(layers), listing) == layers
  {
    SavedAsMeaning(layers);
    SortSorts(listing);
    NamesSortedExactlyUpToTen(|layers|);
    SortedIsUnique(Sort(listing), SaveNames(|layers|));
  }

  lemma {:induction false} ReadTopmost(layers: seq<Layer>, at: nat, k: nat)
    requires k < |layers| && at in layers[k] && forall j :: k < j < |layers| ==> at !in layers[j]
    ensures Read(layers, at) == layers[k][at]
  {
    var n := |layers| - 1;
    if k < n {
      ReadTopmost(layers[..n], at, k);
    }
  }

  /** Eleven or more layers: layer 2 hides layer 10 after loading. */
  function Witness(n: nat): seq<Layer> {
    seq(n, i => if i == 2 then map[0 := 2] else if i == 10 then map[0 := 10] else map[])
  }

  /** Above "2.qcow2" in sorted order the witness never holds sector 0. */
  lemma NothingAboveTwo(n: nat, x: string)
    requires n > 10 && x in SavedAs(Witness(n)) && Less(Name(2), x)
    ensures 0 !in SavedAs(Witness(n))[x]
  {
    hide Name, SavedAs, Less;
    SavedAsMeaning(Witness(n));
    var i :| 0 <= i < n && SaveNames(n)[i] == x;
    TenComesBeforeTwo();
    LessIsTotal(Name(2), Name(2));
    assert Witness(n)[i] == SavedAs(Witness(n))[Name(i)];
  }

  lemma LoadedOutOfOrder(n: nat, listing: seq<string>)
    requires n > 10 && Lists(listing, SavedAs(Witness(n)))
    ensures Read(Witness(n), 0) == 10 && Read(Loaded(SavedAs(Witness(n)), listing), 0) == 2
  {
    hide Name, SavedAs, Less, Read, Sort;
    var layers, saved := Witness(n), SavedAs(Witness(n));
    ReadTopmost(layers, 0, 10);
    SavedAsMeaning(layers);
    SortSorts(listing);
    var names := Sort(listing);
    var stack := Loaded(saved, listing);
    assert SaveNames(n)[2] == Name(2) && Name(2) in SaveNames(n);
    var k :| 0 <= k < |names| && names[k] == Name(2);
    forall j | k < j < |names| ensures 0 !in stack[j] {
      assert Less(names[k], names[j]);
      assert names[j] in names;
      NothingAboveTwo(n, names[j]);
    }
    assert stack[k] == layers[2];
    ReadTopmost(stack, 0, k);
  }

  ghost predicate LoadsBack(below: seq<Layer>, layers: seq<Layer>, listing: seq<string>)
    requires Lists(listing, SavedAs(layers))
  {
    SameDisk(below + Loaded(SavedAs(layers), listing), below + layers)
  }

  /** Saving and loading preserve every disk of `n` layers exactly when `n` is at most ten. */
  lemma LoadPreservesExactlyUpToTen(n: nat)
    ensures (forall below: seq<Layer>, layers: seq<Layer>, listing ::
               |layers| == n && Lists(listing, SavedAs(layers)) ==> LoadsBack(below, layers, listing))
            <==> n <= 10
  {
    hide SavedAs, Loaded, Read, SaveNames;
    if n <= 10 {
      forall below: seq<Layer>, layers: seq<Layer>, listing | |layers| == n && Lists(listing, SavedAs(layers))
        ensures LoadsBack(below, layers, listing)
      {
        LoadedInOrder(layers, listing);
      }
    } else {
      LoadFailsPastTen(n);
    }
  }

  lemma LoadFailsPastTen(n: nat)
    requires n > 10
    ensures Lists(SaveNames(n), SavedAs(Witness(n))) && !LoadsBack([], Witness(n), SaveNames(n))
  {
    hide SavedAs, Loaded, Read, SaveNames;
    var layers, listing := Witness(n), SaveNames(n);
    SavedAsMeaning(layers);
    SaveNamesAreDistinct(n);
    LoadedOutOfOrder(n, listing);
    var none: seq<Layer> := [];
    assert none + layers == layers;
    assert none + Loaded(SavedAs(layers), listing) == Loaded(SavedAs(layers), listing);
  }
}
