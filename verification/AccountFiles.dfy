/**
 User accounts kept by editing /etc/passwd, /etc/group and /etc/shadow as text.

 A missing file reads as empty.  Appending writes succeed; preparing the home directory may fail,
 and does so after the files have been written.
 */
module AccountFiles {
  import opened Text
  import opened Wrappers

  const UID_MIN := 1000
  const UID_MAX := 60000

  datatype PwEntry = PwEntry(uid: nat, gid: nat, home: string)

  datatype Outcome<T> = Ok(value: T) | Err(message: string)

  predicate ValidUsername(name: string) {
    && 0 < |name| <= 32
    && forall i :: 0 <= i < |name| ==>
         ('a' <= name[i] <= 'z') || name[i] == '_' || (i > 0 && (IsDigit(name[i]) || name[i] == '-'))
  }

  const LETTERS := "abcdefghijklmnopqrstuvwxyz_"
  const DIGITS := "0123456789-"

  lemma IsLetter(c: char)
    ensures c in LETTERS <==> 'a' <= c <= 'z' || c == '_'
  {
    assert forall i :: 0 <= i < 26 ==> LETTERS[i] == ('a' as int + i) as char;
    if 'a' <= c <= 'z' {
      assert LETTERS[c as int - 'a' as int] == c;
    } else if c == '_' {
      assert LETTERS[26] == c;
    }
  }

  lemma IsDigitOrDash(c: char)
    ensures c in DIGITS <==> IsDigit(c) || c == '-'
  {
    assert forall i :: 0 <= i < 10 ==> DIGITS[i] == ('0' as int + i) as char;
    if IsDigit(c) {
      assert DIGITS[c as int - '0' as int] == c;
    } else if c == '-' {
      assert DIGITS[10] == c;
    }
  }

  /** One to 32 characters: a small letter or underscore, then small letters, underscores, digits and dashes. */
  lemma ValidUsernameExactly(name: string)
    ensures ValidUsername(name) <==>
            && 1 <= |name| <= 32 && name[0] in LETTERS && forall c :: c in name[1..] ==> c in LETTERS + DIGITS
  {
    forall c: char
      ensures c in LETTERS <==> 'a' <= c <= 'z' || c == '_'
      ensures c in LETTERS + DIGITS <==> 'a' <= c <= 'z' || c == '_' || IsDigit(c) || c == '-'
    {
      IsLetter(c);
      IsDigitOrDash(c);
    }
    hide LETTERS, DIGITS;
    assert forall i :: 1 <= i < |name| ==> name[i] == name[1..][i - 1];
    if name != "" && forall c :: c in name[1..] ==> c in LETTERS + DIGITS {
      forall i | 1 <= i < |name| ensures name[i] in LETTERS + DIGITS {
        assert name[i] in name[1..];
      }
    }
  }

  // ---------------------------------------------------------------------------------------------
  // Reading
  // ---------------------------------------------------------------------------------------------

  predicate Matches(line: string, name: string) {
    |Fields(line)| >= 7 && Fields(line)[0] == name
  }

  function Entry(line: string): Option<PwEntry>
    requires |Fields(line)| >= 7
  {
    var f := Fields(line);
    match (ParseU32(f[2]), ParseU32(f[3]))
    case (Some(uid), Some(gid)) => Some(PwEntry(uid, gid, f[5]))
    case _ => None
  }

  /** The first matching line decides, even when its ids do not parse. */
  function Lookup(lines: seq<string>, name: string): Option<PwEntry> {
    if lines == [] then None
    else if Matches(lines[0], name) then Entry(lines[0])
    else Lookup(lines[1..], name)
  }

  /** The id in the third field, if it is a managed one. */
  function ManagedId(line: string): Option<nat> {
    var f := Fields(line);
    if |f| <= 2 then None
    else
      match ParseU32(f[2])
      case Some(id) => if UID_MIN <= id < UID_MAX then Some(id) else None
      case None => None
  }

  ghost predicate HasId(lines: seq<string>, id: nat) {
    exists l :: l in lines && ManagedId(l) == Some(id)
  }

  // ---------------------------------------------------------------------------------------------
  // Writing
  // ---------------------------------------------------------------------------------------------

  function GroupLine(name: string, id: nat): string {
    Join([name, "x", Decimal(id), ""], ':')
  }

  function Home(name: string): string {
    "/home/" + name
  }

  function PasswdLine(name: string, id: nat): string {
    Join([name, "x", Decimal(id), Decimal(id), "", Home(name), "/bin/sh"], ':')
  }

  function ShadowLine(name: string): string {
    Join([name, "!", "", "0", "99999", "7", "", "", ""], ':')
  }

  function Appended(text: string, line: string): string {
    text + line + "\n"
  }

  function Kept(lines: seq<string>, name: string): seq<string> {
    if lines == [] then []
    else if name + ":" <= lines[0] then Kept(lines[1..], name)
    else [lines[0]] + Kept(lines[1..], name)
  }

  function Rewritten(lines: seq<string>): string {
    var out := Join(lines, '\n');
    if out == "" then "" else out + "\n"
  }

  function Removed(text: string, name: string): string {
    Rewritten(Kept(Lines(text), name))
  }

  // ---------------------------------------------------------------------------------------------
  // What appending does to lookups
  // ---------------------------------------------------------------------------------------------

  lemma {:induction false} LookupAppend(a: seq<string>, b: seq<string>, name: string)
    ensures Lookup(a + b, name) == if exists l :: l in a && Matches(l, name) then Lookup(a, name) else Lookup(b, name)
  {
    if a == [] {
      assert a + b == b;
    } else {
      assert (a + b)[1..] == a[1..] + b;
      LookupAppend(a[1..], b, name);
      assert a == [a[0]] + a[1..];
    }
  }

  lemma NameHasNoPunctuation(name: string)
    requires ValidUsername(name)
    ensures ':' !in name && '\n' !in name && '\r' !in name
    ensures name != "" && !IsDigit(name[0])
  {
  }

  lemma PasswdLineParts(name: string, id: nat)
    requires ValidUsername(name) && id < UID_MAX
    ensures Fields(PasswdLine(name, id)) == [name, "x", Decimal(id), Decimal(id), "", Home(name), "/bin/sh"]
    ensures Matches(PasswdLine(name, id), name)
    ensures Entry(PasswdLine(name, id)) == Some(PwEntry(id, id, Home(name)))
    ensures UID_MIN <= id ==> ManagedId(PasswdLine(name, id)) == Some(id)
  {
    NameHasNoPunctuation(name);
    DecimalRoundTrip(id);
    FieldsOfJoin([name, "x", Decimal(id), Decimal(id), "", Home(name), "/bin/sh"]);
  }

  /** Joined fields with no line breaks make one line that is stored as it is. */
  lemma {:induction false} JoinIsOneLine(fs: seq<string>, sep: char)
    requires sep != '\n' && sep != '\r'
    requires forall f :: f in fs ==> '\n' !in f && '\r' !in f
    ensures '\n' !in Join(fs, sep) && '\r' !in Join(fs, sep) && StripCr(Join(fs, sep)) == Join(fs, sep)
  {
    if |fs| > 1 {
      JoinIsOneLine(fs[1..], sep);
    }
  }

  lemma PasswdLineIsOneLine(name: string, id: nat)
    requires ValidUsername(name) && id < UID_MAX
    ensures '\n' !in PasswdLine(name, id) && '\r' !in PasswdLine(name, id)
    ensures StripCr(PasswdLine(name, id)) == PasswdLine(name, id)
  {
    NameHasNoPunctuation(name);
    DecimalRoundTrip(id);
    JoinIsOneLine([name, "x", Decimal(id), Decimal(id), "", Home(name), "/bin/sh"], ':');
  }

  lemma AppendedLines(text: string, name: string, id: nat)
    requires ValidUsername(name) && id < UID_MAX && Terminated(text)
    ensures Lines(Appended(text, PasswdLine(name, id))) == Lines(text) + [PasswdLine(name, id)]
  {
    PasswdLineIsOneLine(name, id);
    LinesOfAppended(text, PasswdLine(name, id));
  }

  lemma LookupOne(line: string, name: string)
    ensures Lookup([line], name) == if Matches(line, name) then Entry(line) else None
  {
    assert [line][1..] == [];
  }

  /** An unfinished last line swallows the new record, and no uid it yields is the new one. */
  lemma GluedIsNotFound(last: string, name: string, id: nat)
    requires ValidUsername(name) && id < UID_MAX && last != ""
    requires ManagedId(last).Some? ==> ManagedId(last).value < id
    requires UID_MIN <= id
    ensures var g := last + PasswdLine(name, id);
            Matches(g, name) ==> Entry(g).None? || Entry(g).value.uid != id
  {
    var g := last + PasswdLine(name, id);
    PasswdLineParts(name, id);
    FieldsOfGlued(last, PasswdLine(name, id));
    FieldsHaveNoColon(last);
    NameHasNoPunctuation(name);
    var f := Fields(last);
    hide PasswdLine, Entry, Decimal, Join;
    if |f| == 1 {
      AroundFirst(last, ':');
      OneFieldIsAll(last);
      assert |last + name| > |name|;
    } else if |f| == 2 {
      XIsNotANumber();
      EntryNeedsUid(g);
    } else if |f| == 3 {
      NameInsideNumber(f[2], name);
      EntryNeedsUid(g);
    } else {
      assert Fields(g)[2] == f[2];
      EntryNeedsUid(g);
    }
  }

  lemma OneFieldIsAll(l: string)
    requires |Fields(l)| == 1
    ensures Fields(l)[0] == l
  {
  }

  lemma XIsNotANumber()
    ensures ParseU32("x") == None
  {
    assert !IsDigit("x"[0]);
  }

  lemma NameInsideNumber(prefix: string, name: string)
    requires ValidUsername(name)
    ensures ParseU32(prefix + name) == None
  {
    var s := prefix + name;
    var d := if s[0] == '+' then s[1..] else s;
    assert s[|prefix|] == name[0] && !IsDigit(name[0]);
    var at := |prefix| - (|s| - |d|);
    assert at >= 0 ==> d[at] == name[0];
  }

  lemma EntryNeedsUid(line: string)
    requires |Fields(line)| >= 7
    ensures Entry(line).Some? ==> ParseU32(Fields(line)[2]) == Some(Entry(line).value.uid)
  {
  }

  /** `id` is above every managed id of these lines. */
  ghost predicate AboveAll(lines: seq<string>, id: nat) {
    forall l :: l in lines && ManagedId(l).Some? ==> ManagedId(l).value < id
  }

  /**
   A created user looks up to its own fresh uid exactly when the file's last line was finished and
   no earlier line already claimed the name.  (Such a line may exist although the name looked
   free, because a first match with unreadable ids makes the lookup fail.)
   */
  lemma CreatedUserIsFound(text: string, name: string, id: nat)
    requires ValidUsername(name) && UID_MIN <= id < UID_MAX
    requires Lookup(Lines(text), name) == None && AboveAll(Lines(text), id)
    ensures Lookup(Lines(Appended(text, PasswdLine(name, id))), name) == Some(PwEntry(id, id, Home(name)))
            <==> Terminated(text) && forall l :: l in Lines(text) ==> !Matches(l, name)
  {
    if Terminated(text) {
      PasswdLineParts(name, id);
      AppendedLines(text, name, id);
      LookupAppend(Lines(text), [PasswdLine(name, id)], name);
      LookupOne(PasswdLine(name, id), name);
    } else {
      GluedUserIsNotFound(text, name, id);
    }
  }

  lemma GluedUserIsNotFound(text: string, name: string, id: nat)
    requires ValidUsername(name) && UID_MIN <= id < UID_MAX && !Terminated(text)
    requires Lookup(Lines(text), name) == None && AboveAll(Lines(text), id)
    ensures var e := Lookup(Lines(Appended(text, PasswdLine(name, id))), name); e.None? || e.value.uid != id
  {
    hide PasswdLine, Lines, ManagedId, ValidUsername, Lookup, StripCr;
    var line := PasswdLine(name, id);
    PasswdLineIsOneLine(name, id);
    LinesOfGlued(text, line);
    var init, last := Lines(text)[..|Lines(text)| - 1], Lines(text)[|Lines(text)| - 1];
    assert Lines(text) == init + [last];
    assert last in Lines(text);
    assert ManagedId(last).Some? ==> ManagedId(last).value < id;
    GluedIsOneLine(last, name, id);
    assert Lines(Appended(text, line)) == init + [last + line];
    hide *;
    GluedLookup(init, last, name, id);
  }

  lemma GluedLookup(init: seq<string>, last: string, name: string, id: nat)
    requires ValidUsername(name) && UID_MIN <= id < UID_MAX && last != "" && Lookup(init + [last], name) == None
    requires ManagedId(last).Some? ==> ManagedId(last).value < id
    ensures var e := Lookup(init + [last + PasswdLine(name, id)], name); e.None? || e.value.uid != id
  {
    GluedIsNotFound(last, name, id);
    hide PasswdLine, Entry, Matches, ManagedId, ValidUsername, Lookup;
    LookupPastLast(init, last, last + PasswdLine(name, id), name);
    LookupOne(last + PasswdLine(name, id), name);
  }

  /** Where a name was not found, replacing the last line can only bring up that line. */
  lemma LookupPastLast(init: seq<string>, last: string, glued: string, name: string)
    requires Lookup(init + [last], name) == None
    ensures Lookup(init + [glued], name) in {None, Lookup([glued], name)}
  {
    hide Matches, Entry;
    LookupAppend(init, [last], name);
    LookupAppend(init, [glued], name);
  }

  lemma GluedIsOneLine(last: string, name: string, id: nat)
    requires ValidUsername(name) && id < UID_MAX
    ensures StripCr(last + PasswdLine(name, id)) == last + PasswdLine(name, id)
  {
    PasswdLineIsOneLine(name, id);
  }

  /** A short unfinished last line becomes, with the record glued to it, the first entry of a user that had none. */
  ghost predicate GluedClaims(text: string, record: string, other: string) {
    && !Terminated(text) && Lines(text) != []
    && var init, last := Lines(text)[..|Lines(text)| - 1], Lines(text)[|Lines(text)| - 1];
       && |Fields(last)| < 7 && (forall l :: l in init ==> !Matches(l, other))
       && Matches(last + record, other) && Entry(last + record).Some?
  }

  /**
   Creating one user changes what another looks up to only if the record is glued to a short
   unfinished line that thereby becomes the other's first entry.
   */
  lemma CreateKeepsOthers(text: string, name: string, id: nat, other: string)
    requires ValidUsername(name) && id < UID_MAX && other != name
    ensures Lookup(Lines(Appended(text, PasswdLine(name, id))), other) == Lookup(Lines(text), other)
            <==> !GluedClaims(text, PasswdLine(name, id), other)
  {
    var line := PasswdLine(name, id);
    if Terminated(text) {
      PasswdLineParts(name, id);
      AppendedLines(text, name, id);
      LookupOne(line, other);
      LookupAppend(Lines(text), [line], other);
      LookupWithoutMatch(Lines(text), other);
    } else {
      PasswdLineIsOneLine(name, id);
      LinesOfGlued(text, line);
      var init, last := Lines(text)[..|Lines(text)| - 1], Lines(text)[|Lines(text)| - 1];
      assert Lines(text) == init + [last];
      GluedIsOneLine(last, name, id);
      hide PasswdLine, Entry, Matches, Lines, ValidUsername, Lookup;
      LookupAppend(init, [last], other);
      LookupAppend(init, [last + line], other);
      LookupOfGlued(last, line, other);
    }
  }

  lemma LookupOfGlued(last: string, line: string, other: string)
    ensures Lookup([last + line], other) == Lookup([last], other)
            <==> !(|Fields(last)| < 7 && Matches(last + line, other) && Entry(last + line).Some?)
  {
    LookupOne(last, other);
    LookupOne(last + line, other);
    FieldsOfGlued(last, line);
    hide Fields;
  }

  lemma {:induction false} LookupWithoutMatch(lines: seq<string>, name: string)
    ensures (forall l :: l in lines ==> !Matches(l, name)) ==> Lookup(lines, name) == None
  {
    if lines != [] {
      LookupWithoutMatch(lines[1..], name);
    }
  }

  // ---------------------------------------------------------------------------------------------
  // What removing does to lookups
  // ---------------------------------------------------------------------------------------------

  lemma {:induction false} KeptLines(lines: seq<string>, name: string)
    ensures forall l :: l in Kept(lines, name) <==> l in lines && !(name + ":" <= l)
    ensures |Kept(lines, name)| <= |lines|
    ensures (forall l :: l in lines ==> !(name + ":" <= l)) <==> Kept(lines, name) == lines
  {
    if lines != [] {
      KeptLines(lines[1..], name);
      assert lines == [lines[0]] + lines[1..];
      if name + ":" <= lines[0] {
        assert lines[0] in lines;
      } else {
        assert Kept(lines, name)[1..] == Kept(lines[1..], name);
        assert forall l :: l in lines[1..] ==> l in lines;
      }
    }
  }

  /** Rewriting drops a carriage return at the end of any kept line, and a file that is one blank line. */
  lemma RewrittenLines(lines: seq<string>)
    requires forall l :: l in lines ==> '\n' !in l
    ensures Lines(Rewritten(lines)) == if lines == [""] then [] else StripAll(lines)
  {
    if lines == [] || lines == [""] {
      assert Lines("") == [];
    } else {
      JoinNonempty(lines);
      LinesOfJoin(lines);
    }
  }

  lemma JoinNonempty(lines: seq<string>)
    requires lines != [] && lines != [""]
    ensures Join(lines, '\n') != ""
  {
    if |lines| == 1 {
      assert lines == [lines[0]];
    }
  }

  lemma MatchesStripped(l: string, name: string)
    ensures Matches(StripCr(l), name) <==> Matches(l, name)
    ensures Matches(l, name) ==> Entry(StripCr(l)) == Entry(l)
  {
    FieldsOfStripped(l);
  }

  lemma {:induction false} LookupStripped(lines: seq<string>, name: string)
    ensures Lookup(StripAll(lines), name) == Lookup(lines, name)
  {
    if lines != [] {
      MatchesStripped(lines[0], name);
      LookupStripped(lines[1..], name);
    }
  }

  lemma MatchBeginsWithName(l: string, name: string)
    requires ':' !in name
    ensures Matches(l, name) ==> name + ":" <= l
    ensures forall other :: Matches(l, other) && other != name ==> !(name + ":" <= l)
  {
    StartsWithField(l, name);
  }

  lemma {:induction false} LookupKept(lines: seq<string>, name: string, other: string)
    requires ':' !in name
    ensures Lookup(Kept(lines, name), other) == if other == name then None else Lookup(lines, other)
  {
    if lines != [] {
      MatchBeginsWithName(lines[0], name);
      LookupKept(lines[1..], name, other);
      hide Matches, Entry;
      if !(name + ":" <= lines[0]) {
        var kept := Kept(lines, name);
        assert kept[0] == lines[0] && kept[1..] == Kept(lines[1..], name);
        assert Lookup(kept, other) == if Matches(kept[0], other) then Entry(kept[0]) else Lookup(kept[1..], other);
      }
    }
  }

  /** Deleting a user, from any file at all, forgets that user and changes no other lookup. */
  lemma DeleteForgetsOnlyThatUser(text: string, name: string, other: string)
    requires ValidUsername(name)
    ensures Lookup(Lines(Removed(text, name)), other) == if other == name then None else Lookup(Lines(text), other)
  {
    NameHasNoPunctuation(name);
    LinesHaveNoNewline(text);
    var kept := Kept(Lines(text), name);
    KeptLines(Lines(text), name);
    RewrittenLines(kept);
    LookupStripped(kept, other);
    LookupKept(Lines(text), name, other);
    if kept == [""] {
      BlankLineNeverMatches(other);
    }
  }

  lemma BlankLineNeverMatches(name: string)
    ensures Lookup([""], name) == None && Lookup([], name) == None
  {
    OneField("");
    LookupOne("", name);
  }

  /** A rewritten file has no line of the user, and every other line, less a carriage return at its end. */
  lemma RemovedFromFile(text: string, name: string)
    requires ValidUsername(name)
    ensures forall l :: l in Lines(Removed(text, name)) ==> !(name + ":" <= l)
    ensures forall l :: l in Lines(text) && !(name + ":" <= l) && l != "" ==> StripCr(l) in Lines(Removed(text, name))
  {
    NameHasNoPunctuation(name);
    LinesHaveNoNewline(text);
    var kept := Kept(Lines(text), name);
    KeptLines(Lines(text), name);
    RewrittenLines(kept);
    StripAllIsMap(kept);
    hide Lines, Kept, Rewritten, ValidUsername;
    forall l | l in Lines(Removed(text, name)) ensures !(name + ":" <= l) {
      var k :| 0 <= k < |kept| && StripAll(kept)[k] == l;
      assert l == StripCr(kept[k]) <= kept[k] && kept[k] in kept;
    }
    forall l | l in Lines(text) && !(name + ":" <= l) && l != "" ensures StripCr(l) in Lines(Removed(text, name)) {
      assert l in kept;
      var k :| 0 <= k < |kept| && kept[k] == l;
      assert StripAll(kept)[k] == StripCr(l) && kept != [""];
    }
  }

  // ---------------------------------------------------------------------------------------------
  // Delete after create
  // ---------------------------------------------------------------------------------------------

  lemma {:induction false} KeptAppend(a: seq<string>, b: seq<string>, name: string)
    ensures Kept(a + b, name) == Kept(a, name) + Kept(b, name)
  {
    if a == [] {
      assert a + b == b;
    } else {
      assert (a + b)[1..] == a[1..] + b;
      KeptAppend(a[1..], b, name);
    }
  }

  lemma {:induction false} StripAllIsMap(lines: seq<string>)
    ensures |StripAll(lines)| == |lines|
    ensures forall k :: 0 <= k < |lines| ==> StripAll(lines)[k] == StripCr(lines[k])
  {
    if lines != [] {
      StripAllIsMap(lines[1..]);
    }
  }

  /** The conditions under which removing a freshly appended record puts a file back. */
  predicate Restorable(text: string, name: string) {
    && Lines(text) != [""]
    && forall l :: l in Lines(text) ==> !(name + ":" <= l) && StripCr(l) == l
  }

  /**
   Deleting right after creating restores a file line for line exactly when its last line was
   finished, no earlier line began with the name and a colon, no line ended in a carriage return, and
   the file was not one blank line.
   */
  lemma DeleteAfterCreateRestores(text: string, name: string, line: string)
    requires '\n' !in line && StripCr(line) == line && name + ":" <= line
    ensures Lines(Removed(Appended(text, line), name)) == Lines(text) <==> Terminated(text) && Restorable(text, name)
  {
    if Terminated(text) {
      LinesOfAppended(text, line);
      LinesHaveNoNewline(text);
      KeptAppend(Lines(text), [line], name);
      assert Kept([line], name) == [] by { assert [line][1..] == []; }
      assert Kept(Lines(text) + [line], name) == Kept(Lines(text), name);
      KeptLines(Lines(text), name);
      hide Kept, Lines;
      RewriteRestores(Lines(text), Kept(Lines(text), name));
      if |Kept(Lines(text), name)| == |Lines(text)| {
        KeptSameLength(Lines(text), name);
      }
    } else {
      GluedIsNotRestored(text, name, line);
    }
  }

  /** Glued to an unfinished line, the record takes that line with it or changes it for good. */
  lemma GluedIsNotRestored(text: string, name: string, line: string)
    requires !Terminated(text) && '\n' !in line && StripCr(line) == line && name + ":" <= line
    ensures Lines(Removed(Appended(text, line), name)) != Lines(text)
  {
    LinesOfGlued(text, line);
    var lines := Lines(text);
    var n := |lines| - 1;
    StripOfGlued(lines[n], line);
    LinesHaveNoNewline(Appended(text, line));
    hide Lines, Kept, Rewritten;
    LongerLineIsNotRestored(lines, lines[n] + line, name);
  }

  lemma LongerLineIsNotRestored(lines: seq<string>, longer: string, name: string)
    requires lines != [] && |longer| > |lines[|lines| - 1]| && StripCr(longer) == longer
    requires forall l :: l in lines[..|lines| - 1] + [longer] ==> '\n' !in l
    ensures Lines(Rewritten(Kept(lines[..|lines| - 1] + [longer], name))) != lines
  {
    var n := |lines| - 1;
    var glued := lines[..n] + [longer];
    KeptLines(glued, name);
    var kept := Kept(glued, name);
    hide Kept, Lines, Rewritten, StripAll;
    RewrittenLines(kept);
    StripAllIsMap(kept);
    if |kept| == |lines| {
      KeptSameLength(glued, name);
      assert StripAll(kept)[n] == longer;
    }
  }

  lemma StripOfGlued(last: string, line: string)
    requires line != "" && StripCr(line) == line
    ensures StripCr(last + line) == last + line
  {
    assert (last + line)[|last + line| - 1] == line[|line| - 1];
  }

  lemma RewriteRestores(lines: seq<string>, kept: seq<string>)
    requires forall l :: l in kept ==> l in lines && '\n' !in l
    ensures Lines(Rewritten(kept)) == lines <==> kept != [""] && StripAll(kept) == lines
    ensures StripAll(kept) == lines ==> |kept| == |lines|
    ensures kept == lines ==> (StripAll(kept) == lines <==> forall l :: l in lines ==> StripCr(l) == l)
  {
    RewrittenLines(kept);
    StripAllIsMap(kept);
    StripAllIsIdentity(lines);
    hide Lines, StripAll, StripCr, Rewritten;
    assert kept == [""] ==> kept[0] in lines;
  }

  lemma StripAllIsIdentity(lines: seq<string>)
    ensures StripAll(lines) == lines <==> forall l :: l in lines ==> StripCr(l) == l
  {
    StripAllIsMap(lines);
    hide StripAll, StripCr;
    if StripAll(lines) == lines {
      forall l | l in lines ensures StripCr(l) == l {
        var k :| 0 <= k < |lines| && lines[k] == l;
        assert StripAll(lines)[k] == StripCr(lines[k]);
      }
    }
  }

  lemma {:induction false} KeptSameLength(lines: seq<string>, name: string)
    requires |Kept(lines, name)| == |lines|
    ensures Kept(lines, name) == lines
  {
    if lines != [] {
      KeptLines(lines[1..], name);
      KeptSameLength(lines[1..], name);
    }
  }

  // ---------------------------------------------------------------------------------------------
  // The operations
  // ---------------------------------------------------------------------------------------------

  datatype Files = Files(passwd: Option<string>, group: Option<string>, shadow: Option<string>)

  function TextOf(file: Option<string>): string {
    if file.Some? then file.value else ""
  }

  function MaxManaged(lines: seq<string>, max: nat): nat {
    if lines == [] then max
    else
      var id := ManagedId(lines[0]);
      MaxManaged(lines[1..], if id.Some? && id.value > max then id.value else max)
  }

  function NextFree(f: Files): nat {
    MaxManaged(Lines(TextOf(f.group)), MaxManaged(Lines(TextOf(f.passwd)), UID_MIN - 1)) + 1
  }

  function Create(f: Files, name: string): (Files, Outcome<PwEntry>) {
    if !ValidUsername(name) then (f, Err("Invalid username"))
    else if Lookup(Lines(TextOf(f.passwd)), name).Some? then (f, Err("User already exists"))
    else
      var id := NextFree(f);
      if id >= UID_MAX then (f, Err("No free uid available"))
      else
        (Files(Some(Appended(TextOf(f.passwd), PasswdLine(name, id))),
               Some(Appended(TextOf(f.group), GroupLine(name, id))),
               Some(Appended(TextOf(f.shadow), ShadowLine(name)))),
         Ok(PwEntry(id, id, Home(name))))
  }

  function WithoutUser(file: Option<string>, name: string): Option<string> {
    if file.None? then None else Some(Removed(file.value, name))
  }

  function Delete(f: Files, name: string): (Files, Outcome<()>) {
    if !ValidUsername(name) then (f, Err("Invalid username"))
    else if Lookup(Lines(TextOf(f.passwd)), name).None? then (f, Err("No such user"))
    else (Files(WithoutUser(f.passwd, name), WithoutUser(f.group, name), WithoutUser(f.shadow, name)), Ok(()))
  }

  class Accounts {
    var passwd: Option<string>
    var group: Option<string>
    var shadow: Option<string>

    ghost function State(): Files
      reads this
    {
      Files(passwd, group, shadow)
    }

    method LookupUser(name: string) returns (entry: Option<PwEntry>)
      ensures entry == Lookup(Lines(TextOf(passwd)), name)
    {
      if passwd.None? {
        return None;
      }
      var lines := Lines(passwd.value);
      assert lines[0..] == lines;
      for k := 0 to |lines|
        invariant Lookup(lines, name) == Lookup(lines[k..], name)
      {
        var f := Fields(lines[k]);
        if |f| >= 7 && f[0] == name {
          var uid, gid := ParseU32(f[2]), ParseU32(f[3]);
          if uid.None? || gid.None? {
            return None;
          }
          return Some(PwEntry(uid.value, gid.value, f[5]));
        }
      }
      return None;
    }

    method ScanIds(file: Option<string>, floor: nat) returns (max: nat)
      ensures max == MaxManaged(Lines(TextOf(file)), floor)
    {
      max := floor;
      if file.None? {
        return;
      }
      var lines := Lines(file.value);
      assert lines[0..] == lines;
      for k := 0 to |lines|
        invariant MaxManaged(lines, floor) == MaxManaged(lines[k..], max)
      {
        var f := Fields(lines[k]);
        if |f| > 2 {
          var id := ParseU32(f[2]);
          if id.Some? && UID_MIN <= id.value < UID_MAX && id.value > max {
            max := id.value;
          }
        }
      }
    }

    method NextFreeId() returns (id: nat)
      ensures id == NextFree(State())
    {
      var max := ScanIds(passwd, UID_MIN - 1);
      max := ScanIds(group, max);
      return max + 1;
    }

    method CreateUser(name: string, homeReady: bool) returns (r: Outcome<PwEntry>)
      modifies this
      ensures State() == Create(old(State()), name).0
      ensures var planned := Create(old(State()), name).1;
              if planned.Ok? && !homeReady then r.Err? else r == planned
    {
      if !ValidUsername(name) {
        return Err("Invalid username");
      }
      var existing := LookupUser(name);
      if existing.Some? {
        return Err("User already exists");
      }
      var id := NextFreeId();
      if id >= UID_MAX {
        return Err("No free uid available");
      }
      group := Some(Appended(TextOf(group), GroupLine(name, id)));
      passwd := Some(Appended(TextOf(passwd), PasswdLine(name, id)));
      shadow := Some(Appended(TextOf(shadow), ShadowLine(name)));
      if !homeReady {
        return Err("home");
      }
      return Ok(PwEntry(id, id, Home(name)));
    }

    method RemoveLinesForUser(file: Option<string>, name: string) returns (rewritten: Option<string>)
      ensures rewritten == WithoutUser(file, name)
    {
      if file.None? {
        return None;
      }
      var lines := Lines(file.value);
      var kept: seq<string> := [];
      assert lines[0..] == lines;
      for k := 0 to |lines|
        invariant Kept(lines, name) == kept + Kept(lines[k..], name)
      {
        if !(name + ":" <= lines[k]) {
          kept := kept + [lines[k]];
        }
      }
      assert lines[|lines|..] == [] && kept + [] == kept;
      var out := Join(kept, '\n');
      if out != "" {
        out := out + "\n";
      }
      return Some(out);
    }

    method DeleteUser(name: string) returns (r: Outcome<()>)
      modifies this
      ensures State() == Delete(old(State()), name).0 && r == Delete(old(State()), name).1
    {
      if !ValidUsername(name) {
        return Err("Invalid username");
      }
      var entry := LookupUser(name);
      if entry.None? {
        return Err("No such user");
      }
      passwd := RemoveLinesForUser(passwd, name);
      group := RemoveLinesForUser(group, name);
      shadow := RemoveLinesForUser(shadow, name);
      return Ok(());
    }
  }

  // ---------------------------------------------------------------------------------------------
  // Every run
  // ---------------------------------------------------------------------------------------------

  lemma {:induction false} MaxManagedMeaning(lines: seq<string>, max: nat)
    ensures MaxManaged(lines, max) >= max && AboveAll(lines, MaxManaged(lines, max) + 1)
    ensures MaxManaged(lines, max) == max || HasId(lines, MaxManaged(lines, max))
  {
    if lines != [] {
      var id := ManagedId(lines[0]);
      MaxManagedMeaning(lines[1..], if id.Some? && id.value > max then id.value else max);
      assert lines == [lines[0]] + lines[1..];
      assert lines[0] in lines;
    }
  }

  /** The next id is above every managed id in use, and is the least such. */
  lemma NextFreeIsFresh(f: Files)
    ensures UID_MIN <= NextFree(f) <= UID_MAX
    ensures AboveAll(Lines(TextOf(f.passwd)), NextFree(f)) && AboveAll(Lines(TextOf(f.group)), NextFree(f))
    ensures NextFree(f) == UID_MIN
            || HasId(Lines(TextOf(f.passwd)), NextFree(f) - 1) || HasId(Lines(TextOf(f.group)), NextFree(f) - 1)
  {
    var p, g := Lines(TextOf(f.passwd)), Lines(TextOf(f.group));
    NextIsFresh(p, g, MaxManaged(p, UID_MIN - 1), MaxManaged(g, MaxManaged(p, UID_MIN - 1)));
    assert NextFree(f) == MaxManaged(g, MaxManaged(p, UID_MIN - 1)) + 1;
    hide *;
  }

  lemma NextIsFresh(p: seq<string>, g: seq<string>, inPasswd: nat, inBoth: nat)
    requires inPasswd == MaxManaged(p, UID_MIN - 1) && inBoth == MaxManaged(g, inPasswd)
    ensures UID_MIN <= inBoth + 1 <= UID_MAX
    ensures AboveAll(p, inBoth + 1) && AboveAll(g, inBoth + 1)
    ensures inBoth + 1 == UID_MIN || HasId(p, inBoth) || HasId(g, inBoth)
  {
    hide ManagedId, MaxManaged, HasId;
    MaxManagedMeaning(p, UID_MIN - 1);
    MaxManagedMeaning(g, inPasswd);
    AboveAllHigher(p, inPasswd + 1, inBoth + 1);
    MaxManagedInRange(p, UID_MIN - 1);
    MaxManagedInRange(g, inPasswd);
  }

  lemma AboveAllHigher(lines: seq<string>, id: nat, higher: nat)
    requires AboveAll(lines, id) && id <= higher
    ensures AboveAll(lines, higher)
  {
  }

  lemma {:induction false} MaxManagedInRange(lines: seq<string>, max: nat)
    requires max < UID_MAX
    ensures MaxManaged(lines, max) < UID_MAX
  {
    if lines != [] {
      var id := ManagedId(lines[0]);
      MaxManagedInRange(lines[1..], if id.Some? && id.value > max then id.value else max);
    }
  }

  /** No two lines carry the same managed id. */
  ghost predicate DistinctIds(lines: seq<string>) {
    lines == []
    || (DistinctIds(lines[1..]) && (ManagedId(lines[0]).Some? ==> !HasId(lines[1..], ManagedId(lines[0]).value)))
  }

  lemma {:induction false} DistinctAppend(lines: seq<string>, line: string)
    requires DistinctIds(lines) && (ManagedId(line).Some? ==> AboveAll(lines, ManagedId(line).value))
    ensures DistinctIds(lines + [line])
  {
    hide ManagedId;
    if lines == [] {
      assert (lines + [line])[1..] == [];
    } else {
      assert (lines + [line])[1..] == lines[1..] + [line];
      assert forall l :: l in lines[1..] ==> l in lines;
      DistinctAppend(lines[1..], line);
      assert lines[0] in lines;
    }
  }

  lemma {:induction false} DistinctKept(lines: seq<string>, name: string)
    requires DistinctIds(lines)
    ensures DistinctIds(Kept(lines, name))
  {
    hide ManagedId;
    if lines != [] {
      DistinctKept(lines[1..], name);
      KeptLines(lines[1..], name);
      if !(name + ":" <= lines[0]) {
        assert Kept(lines, name)[1..] == Kept(lines[1..], name);
      }
    }
  }

  predicate WellFormed(text: string) {
    Terminated(text) && '\r' !in text
  }

  ghost predicate Consistent(f: Files) {
    && WellFormed(TextOf(f.passwd)) && WellFormed(TextOf(f.group))
    && DistinctIds(Lines(TextOf(f.passwd)))
  }

  lemma {:induction false} LinesHaveNoCr(text: string)
    requires '\r' !in text
    ensures forall l :: l in Lines(text) ==> '\r' !in l && StripCr(l) == l
    decreases |text|
  {
    if text != "" {
      var n := Find(text, '\n');
      hide Find;
      if n < |text| {
        LinesHaveNoCr(text[n + 1..]);
        NoCrStays(text[..n]);
        assert Lines(text) == [StripCr(text[..n])] + Lines(text[n + 1..]);
        hide Lines, StripCr;
      } else {
        NoCrStays(text);
        assert Lines(text) == [text];
        hide Lines, StripCr;
      }
    }
  }

  lemma NoCrStays(s: string)
    requires '\r' !in s
    ensures StripCr(s) == s
  {
  }

  lemma {:induction false} JoinHasNo(lines: seq<string>, sep: char, c: char)
    requires sep != c && forall l :: l in lines ==> c !in l
    ensures c !in Join(lines, sep)
  {
    if |lines| > 1 {
      JoinHasNo(lines[1..], sep, c);
    }
  }

  lemma RemovedLines(text: string, name: string)
    requires WellFormed(text)
    ensures WellFormed(Removed(text, name))
    ensures var kept := Kept(Lines(text), name); Lines(Removed(text, name)) == if kept == [""] then [] else kept
  {
    var kept := Kept(Lines(text), name);
    LinesHaveNoCr(text);
    LinesHaveNoNewline(text);
    KeptLines(Lines(text), name);
    RewrittenLines(kept);
    StripAllIsMap(kept);
    JoinHasNo(kept, '\n', '\r');
    assert StripAll(kept) == kept;
  }

  lemma AppendedIsWellFormed(text: string, line: string)
    requires WellFormed(text) && '\r' !in line
    ensures WellFormed(Appended(text, line))
  {
  }

  datatype Op = CreateOp(name: string) | DeleteOp(name: string)

  function Apply(f: Files, op: Op): Files {
    match op
    case CreateOp(name) => Create(f, name).0
    case DeleteOp(name) => Delete(f, name).0
  }

  function ApplyAll(f: Files, ops: seq<Op>): Files
    decreases |ops|
  {
    if ops == [] then f else ApplyAll(Apply(f, ops[0]), ops[1..])
  }

  /** A run is its operations one after another. */
  lemma {:induction false} RunsStepByStep(f: Files, ops: seq<Op>, op: Op)
    ensures ApplyAll(f, []) == f && ApplyAll(f, ops + [op]) == Apply(ApplyAll(f, ops), op)
    decreases |ops|
  {
    hide Apply;
    if ops == [] {
      assert [op][1..] == [];
    } else {
      assert (ops + [op])[1..] == ops[1..] + [op];
      RunsStepByStep(Apply(f, ops[0]), ops[1..], op);
    }
  }

  lemma CreateKeepsConsistent(f: Files, name: string)
    requires Consistent(f)
    ensures Consistent(Create(f, name).0)
  {
    if Create(f, name).1.Ok? {
      var id := NextFree(f);
      NextFreeIsFresh(f);
      NameHasNoPunctuation(name);
      DecimalRoundTrip(id);
      PasswdLineParts(name, id);
      PasswdLineIsOneLine(name, id);
      JoinIsOneLine([name, "x", Decimal(id), ""], ':');
      AppendedLines(TextOf(f.passwd), name, id);
      hide Lines, Fields, Join, NextFree, PasswdLine, ValidUsername, Decimal;
      AppendedIsWellFormed(TextOf(f.passwd), PasswdLine(name, id));
      AppendedIsWellFormed(TextOf(f.group), GroupLine(name, id));
      DistinctAppend(Lines(TextOf(f.passwd)), PasswdLine(name, id));
    }
  }

  lemma DeleteKeepsConsistent(f: Files, name: string)
    requires Consistent(f)
    ensures Consistent(Delete(f, name).0)
  {
    if Delete(f, name).1.Ok? {
      hide Lines, Kept, Removed, WellFormed;
      RemovedLines(TextOf(f.passwd), name);
      RemovedLines(TextOf(f.group), name);
      DistinctKept(Lines(TextOf(f.passwd)), name);
    }
  }

  lemma {:induction false} RunsStayConsistent(f: Files, ops: seq<Op>)
    requires Consistent(f)
    ensures Consistent(ApplyAll(f, ops))
    decreases |ops|
  {
    if ops != [] {
      match ops[0] {
        case CreateOp(name) => CreateKeepsConsistent(f, name);
        case DeleteOp(name) => DeleteKeepsConsistent(f, name);
      }
      RunsStayConsistent(Apply(f, ops[0]), ops[1..]);
    }
  }

  /** Over any run, a user nobody names keeps exactly the lookup it had. */
  lemma {:induction false} RunsKeepOthers(f: Files, ops: seq<Op>, other: string)
    requires Consistent(f) && forall op :: op in ops ==> op.name != other
    ensures Lookup(Lines(TextOf(ApplyAll(f, ops).passwd)), other) == Lookup(Lines(TextOf(f.passwd)), other)
    decreases |ops|
  {
    if ops != [] {
      var f' := Apply(f, ops[0]);
      assert ops[0] in ops && forall op :: op in ops[1..] ==> op in ops;
      match ops[0] {
        case CreateOp(name) =>
          CreateKeepsConsistent(f, name);
          if Create(f, name).1.Ok? {
            CreateKeepsOthers(TextOf(f.passwd), name, NextFree(f), other);
          }
        case DeleteOp(name) =>
          DeleteKeepsConsistent(f, name);
          if Delete(f, name).1.Ok? {
            DeleteForgetsOnlyThatUser(TextOf(f.passwd), name, other);
          }
      }
      RunsKeepOthers(f', ops[1..], other);
    }
  }

  /** A created user keeps its uid through any run that does not name it again. */
  lemma CreatedUserStays(f: Files, name: string, ops: seq<Op>)
    requires Consistent(f) && Create(f, name).1.Ok?
    requires forall l :: l in Lines(TextOf(f.passwd)) ==> !Matches(l, name)
    requires forall op :: op in ops ==> op.name != name
    ensures Lookup(Lines(TextOf(ApplyAll(Create(f, name).0, ops).passwd)), name) == Some(Create(f, name).1.value)
  {
    NextFreeIsFresh(f);
    CreatedUserIsFound(TextOf(f.passwd), name, NextFree(f));
    CreateKeepsConsistent(f, name);
    RunsKeepOthers(Create(f, name).0, ops, name);
  }

  /**
   What a create appends, field by field: a passwd record with the id twice, the home and the shell, a
   group record with the id, and a shadow record whose password is locked.
   */
  lemma CreatedRecords(f: Files, name: string)
    requires Create(f, name).1.Ok?
    ensures 1000 <= NextFree(f) < 60000
    ensures var f', id := Create(f, name).0, Decimal(NextFree(f));
            && AddsRecord(f.passwd, f'.passwd, [name, "x", id, id, "", "/home/" + name, "/bin/sh"])
            && AddsRecord(f.group, f'.group, [name, "x", id, ""])
            && AddsRecord(f.shadow, f'.shadow, [name, "!", "", "0", "99999", "7", "", "", ""])
  {
    var id := NextFree(f);
    NextFreeIsFresh(f);
    RecordFields(name, id);
    RecordLines(name, id);
    hide Lines, Fields, NextFree, ValidUsername, Lookup, PasswdLine, GroupLine, ShadowLine, AddsRecord;
    AppendsOne(f.passwd, PasswdLine(name, id));
    AppendsOne(f.group, GroupLine(name, id));
    AppendsOne(f.shadow, ShadowLine(name));
  }

  lemma GroupFields(name: string, id: nat)
    requires ValidUsername(name) && id < UID_MAX
    ensures Fields(GroupLine(name, id)) == [name, "x", Decimal(id), ""]
    ensures UID_MIN <= id ==> ManagedId(GroupLine(name, id)) == Some(id)
  {
    NameHasNoPunctuation(name);
    DecimalRoundTrip(id);
    hide Fields, ValidUsername;
    FieldsOfJoin([name, "x", Decimal(id), ""]);
  }

  lemma ShadowFields(name: string)
    requires ValidUsername(name)
    ensures Fields(ShadowLine(name)) == [name, "!", "", "0", "99999", "7", "", "", ""]
  {
    NameHasNoPunctuation(name);
    hide Fields, ValidUsername;
    FieldsOfJoin([name, "!", "", "0", "99999", "7", "", "", ""]);
  }

  lemma RecordFields(name: string, id: nat)
    requires ValidUsername(name) && id < UID_MAX
    ensures Fields(PasswdLine(name, id)) == [name, "x", Decimal(id), Decimal(id), "", "/home/" + name, "/bin/sh"]
    ensures Fields(GroupLine(name, id)) == [name, "x", Decimal(id), ""]
    ensures Fields(ShadowLine(name)) == [name, "!", "", "0", "99999", "7", "", "", ""]
  {
    PasswdLineParts(name, id);
    GroupFields(name, id);
    ShadowFields(name);
  }

  /** If the file's last line was finished, it has one line more, with these fields. */
  ghost predicate AddsRecord(before: Option<string>, after: Option<string>, fields: seq<string>) {
    after.Some? && (Terminated(TextOf(before)) ==>
                      exists line :: Lines(after.value) == Lines(TextOf(before)) + [line] && Fields(line) == fields)
  }

  lemma AppendsOne(before: Option<string>, line: string)
    requires '\n' !in line && StripCr(line) == line
    ensures AddsRecord(before, Some(Appended(TextOf(before), line)), Fields(line))
  {
    if Terminated(TextOf(before)) {
      LinesOfAppended(TextOf(before), line);
    }
  }

  /** A create succeeds unless the name is no username, is taken, or the ids up to 59999 are used up. */
  lemma CreatesExactly(f: Files, name: string)
    ensures Create(f, name).1.Ok? <==>
            ValidUsername(name) && Lookup(Lines(TextOf(f.passwd)), name).None? && NextFree(f) <= 59999
    ensures Create(f, name).1.Err? ==> Create(f, name).0 == f
    ensures Create(f, name).1.Ok? ==> Create(f, name).1.value == PwEntry(NextFree(f), NextFree(f), "/home/" + name)
  {
  }

  /** After a delete none of the three files has a line of the user; a refused one changes nothing. */
  lemma DeleteRemovesEverywhere(f: Files, name: string)
    ensures Delete(f, name).1.Ok? <==> ValidUsername(name) && Lookup(Lines(TextOf(f.passwd)), name).Some?
    ensures Delete(f, name).1.Err? ==> Delete(f, name).0 == f
    ensures Delete(f, name).1.Ok? ==>
              var f' := Delete(f, name).0;
              forall text, l :: text in {TextOf(f'.passwd), TextOf(f'.group), TextOf(f'.shadow)} && l in Lines(text)
                                ==> !(name + ":" <= l)
  {
    if Delete(f, name).1.Ok? {
      RemovedFromFile(TextOf(f.passwd), name);
      RemovedFromFile(TextOf(f.group), name);
      RemovedFromFile(TextOf(f.shadow), name);
      assert Lines("") == [];
    }
  }

  /**
   Deleting right after creating undoes it in both files, line for line, exactly when both files
   meet the conditions for that; passwd's also make sure that the user is found to be deleted.
   */
  lemma DeleteUndoesCreate(f: Files, name: string)
    requires Create(f, name).1.Ok?
    ensures var f', p, g := Delete(Create(f, name).0, name).0, TextOf(f.passwd), TextOf(f.group);
            && (Lines(TextOf(f'.passwd)) == Lines(p) <==> Terminated(p) && Restorable(p, name))
            && (Lines(TextOf(f'.passwd)) == Lines(p) && Lines(TextOf(f'.group)) == Lines(g)
                <==> Terminated(p) && Restorable(p, name) && Terminated(g) && Restorable(g, name))
            && var s := TextOf(f.shadow);
               (Lines(TextOf(f'.passwd)) == Lines(p) && Lines(TextOf(f'.shadow)) == Lines(s)
                <==> Terminated(p) && Restorable(p, name) && Terminated(s) && Restorable(s, name))
  {
    var id := NextFree(f);
    var p, g, s := TextOf(f.passwd), TextOf(f.group), TextOf(f.shadow);
    NextFreeIsFresh(f);
    RecordLines(name, id);
    hide PasswdLine, GroupLine, ShadowLine, Lines, Removed, NextFree, ValidUsername;
    DeleteAfterCreateRestores(p, name, PasswdLine(name, id));
    DeleteAfterCreateRestores(g, name, GroupLine(name, id));
    DeleteAfterCreateRestores(s, name, ShadowLine(name));
    if Terminated(p) && Restorable(p, name) {
      RestorableIsFound(p, name, id);
    }
    AppendedIsNew(p, PasswdLine(name, id));
  }

  lemma RecordLines(name: string, id: nat)
    requires ValidUsername(name) && id < UID_MAX
    ensures forall line :: line in {PasswdLine(name, id), GroupLine(name, id), ShadowLine(name)} ==>
              '\n' !in line && StripCr(line) == line && line != "" && name + ":" <= line
  {
    NameHasNoPunctuation(name);
    DecimalRoundTrip(id);
    PasswdLineIsOneLine(name, id);
    JoinIsOneLine([name, "x", Decimal(id), ""], ':');
    JoinIsOneLine([name, "!", "", "0", "99999", "7", "", "", ""], ':');
    assert name + ":" <= PasswdLine(name, id) && name + ":" <= GroupLine(name, id) && name + ":" <= ShadowLine(name);
  }

  lemma RestorableIsFound(text: string, name: string, id: nat)
    requires Terminated(text) && Restorable(text, name) && ValidUsername(name) && UID_MIN <= id < UID_MAX
    requires Lookup(Lines(text), name) == None && AboveAll(Lines(text), id)
    ensures Lookup(Lines(Appended(text, PasswdLine(name, id))), name).Some?
  {
    forall l | l in Lines(text) ensures !Matches(l, name) {
      MatchBeginsWithName(l, name);
    }
    CreatedUserIsFound(text, name, id);
  }

  /** Whatever the file was, with the record on it it has other lines. */
  lemma AppendedIsNew(text: string, line: string)
    requires '\n' !in line && StripCr(line) == line && line != ""
    ensures Lines(Appended(text, line)) != Lines(text)
  {
    if Terminated(text) {
      LinesOfAppended(text, line);
    } else {
      LinesOfGlued(text, line);
      var n := |Lines(text)| - 1;
      StripOfGlued(Lines(text)[n], line);
      assert |Lines(text)[n] + line| > |Lines(text)[n]|;
    }
  }

  /**
   A passwd file with one record that lacks its newline: another user is created, but neither found
   afterwards nor undone by a delete.
   */
  lemma CreatedUserIsLost(name: string, id: nat, other: string)
    requires ValidUsername(name) && ValidUsername(other) && other != name && id < UID_MIN
    ensures var f := Files(Some(PasswdLine(name, id)), None, None);
            && Create(f, other).1 == Ok(PwEntry(UID_MIN, UID_MIN, Home(other)))
            && Lookup(Lines(TextOf(Create(f, other).0.passwd)), other) != Some(Create(f, other).1.value)
            && Lines(TextOf(Delete(Create(f, other).0, other).0.passwd)) != Lines(TextOf(f.passwd))
  {
    var record := PasswdLine(name, id);
    OneUnfinishedRecord(name, id, other);
    NextIsFirst(record);
    hide Lines, Lookup, PasswdLine, GroupLine, ShadowLine, ValidUsername, NextFree, Home, Delete;
    hide Terminated, Restorable;
    CreatedUserIsFound(record, other, UID_MIN);
    DeleteUndoesCreate(Files(Some(record), None, None), other);
  }

  lemma OneUnfinishedRecord(name: string, id: nat, other: string)
    requires ValidUsername(name) && id < UID_MIN && other != name
    ensures var record := PasswdLine(name, id);
            && Lines(record) == [record] && !Terminated(record) && ManagedId(record) == None
            && Lookup(Lines(record), other) == None && AboveAll(Lines(record), UID_MIN)
  {
    var record := PasswdLine(name, id);
    PasswdLineIsOneLine(name, id);
    PasswdLineParts(name, id);
    DecimalRoundTrip(id);
    hide PasswdLine, Fields, Decimal, Entry, Lines, ParseU32, ValidUsername;
    NoEmptyRecord(record);
    UnfinishedLine(record);
    LookupOne(record, other);
  }

  lemma NoEmptyRecord(record: string)
    requires |Fields(record)| > 1
    ensures record != ""
  {
  }

  lemma NextIsFirst(root: string)
    requires Lines(root) == [root] && ManagedId(root) == None
    ensures NextFree(Files(Some(root), None, None)) == UID_MIN
  {
    EmptyHasNoLines();
    hide ManagedId, Lines;
    assert [root][1..] == [];
    assert MaxManaged([root], UID_MIN - 1) == MaxManaged([], UID_MIN - 1) == UID_MIN - 1;
  }

  /** For instance bob, after a root whose line is not finished. */
  lemma BobIsLost()
    ensures var f := Files(Some(PasswdLine("root", 0)), None, None);
            && Create(f, "bob").1 == Ok(PwEntry(1000, 1000, Home("bob")))
            && Lookup(Lines(TextOf(Create(f, "bob").0.passwd)), "bob") != Some(PwEntry(1000, 1000, Home("bob")))
            && Lines(TextOf(Delete(Create(f, "bob").0, "bob").0.passwd)) != Lines(TextOf(f.passwd))
  {
    var root, bob := "root", "bob";
    assert |root| == 4 && |bob| == 3 && root[0] == 'r' && bob[0] == 'b';
    assert ValidUsername(root) && ValidUsername(bob);
    hide *;
    CreatedUserIsLost(root, 0, bob);
  }

  lemma {:induction false} LookupComesFromLine(lines: seq<string>, name: string)
    requires Lookup(lines, name).Some? && UID_MIN <= Lookup(lines, name).value.uid < UID_MAX
    ensures HasId(lines, Lookup(lines, name).value.uid)
  {
    assert lines[0] in lines;
    if !Matches(lines[0], name) {
      LookupComesFromLine(lines[1..], name);
      assert forall l :: l in lines[1..] ==> l in lines;
    }
  }

  /** In consistent files two users never share a managed uid. */
  lemma {:induction false} UidsAreDistinct(lines: seq<string>, a: string, b: string)
    requires DistinctIds(lines) && a != b && Lookup(lines, a).Some? && Lookup(lines, b).Some?
    requires UID_MIN <= Lookup(lines, a).value.uid < UID_MAX
    ensures Lookup(lines, a).value.uid != Lookup(lines, b).value.uid
  {
    if Lookup(lines, a).value.uid == Lookup(lines, b).value.uid {
      if Matches(lines[0], a) {
        LookupComesFromLine(lines[1..], b);
      } else if Matches(lines[0], b) {
        LookupComesFromLine(lines[1..], a);
      } else {
        UidsAreDistinct(lines[1..], a, b);
      }
    }
  }
}
