/** Lines, colon-separated fields and decimal numbers, as the account files use them. */
module Text {
  import opened Wrappers

  /** The first position of `c`, or the length. */
  function Find(s: string, c: char): (n: nat)
    ensures n <= |s| && (n < |s| ==> s[n] == c)
    ensures forall i :: 0 <= i < n ==> s[i] != c
  {
    if s == "" then 0 else if s[0] == c then 0 else 1 + Find(s[1..], c)
  }

  function StripCr(s: string): string {
    if s != "" && s[|s| - 1] == '\r' then s[..|s| - 1] else s
  }

  /** Lines end in a newline, or a carriage return and a newline; the last may lack its newline. */
  function Lines(s: string): seq<string>
    decreases |s|
  {
    if s == "" then []
    else
      var n := Find(s, '\n');
      if n == |s| then [s] else [StripCr(s[..n])] + Lines(s[n + 1..])
  }

  function Fields(s: string): (f: seq<string>)
    ensures f != []
    decreases |s|
  {
    var n := Find(s, ':');
    if n == |s| then [s] else [s[..n]] + Fields(s[n + 1..])
  }

  function Join(parts: seq<string>, sep: char): string {
    if parts == [] then "" else if |parts| == 1 then parts[0] else parts[0] + [sep] + Join(parts[1..], sep)
  }

  predicate Terminated(s: string) {
    s == "" || s[|s| - 1] == '\n'
  }

  lemma {:induction false} FindAfter(a: string, c: char, b: string)
    requires c !in a && (b == "" || b[0] == c)
    ensures Find(a + b, c) == |a|
  {
    if a == "" {
      assert a + b == b;
    } else {
      assert (a + b)[1..] == a[1..] + b;
      FindAfter(a[1..], c, b);
    }
  }

  /** A text is its part before the first `c`, that `c`, and the rest. */
  lemma AroundFirst(s: string, c: char)
    ensures c !in s[..Find(s, c)]
    ensures Find(s, c) < |s| ==> s == s[..Find(s, c)] + ([c] + s[Find(s, c) + 1..])
    ensures Find(s, c) == |s| ==> c !in s
  {
    hide Find;
  }

  // ---------------------------------------------------------------------------------------------
  // Lines
  // ---------------------------------------------------------------------------------------------

  lemma {:induction false} LinesHaveNoNewline(s: string)
    ensures forall l :: l in Lines(s) ==> '\n' !in l
    decreases |s|
  {
    if s != "" {
      var n := Find(s, '\n');
      AroundFirst(s, '\n');
      if n < |s| {
        LinesHaveNoNewline(s[n + 1..]);
        assert Lines(s) == [StripCr(s[..n])] + Lines(s[n + 1..]);
        assert '\n' !in StripCr(s[..n]);
      } else {
        assert Lines(s) == [s];
      }
    }
  }

  lemma LinesCons(a: string, b: string)
    requires '\n' !in a
    ensures Lines(a + ("\n" + b)) == [StripCr(a)] + Lines(b)
  {
    var s := a + ("\n" + b);
    FindAfter(a, '\n', "\n" + b);
    assert s[..|a|] == a && s[|a| + 1..] == b;
  }

  lemma OneLine(l: string)
    requires '\n' !in l
    ensures Lines(l + "\n") == [StripCr(l)]
  {
    LinesCons(l, "");
    assert l + ("\n" + "") == l + "\n";
  }

  lemma Regroup(a: string, x: string, b: string, l: string, t: string)
    ensures a + (x + b) + l + t == a + (x + (b + l + t))
  {
  }

  lemma AppendedStep(a: string, b: string, l: string)
    requires '\n' !in a && Lines(b + l + "\n") == Lines(b) + [StripCr(l)]
    ensures Lines(a + ("\n" + b) + l + "\n") == Lines(a + ("\n" + b)) + [StripCr(l)]
  {
    hide *;
    LinesCons(a, b);
    LinesCons(a, b + l + "\n");
    Regroup(a, "\n", b, l, "\n");
  }

  /** Appending to a file whose last line is finished adds one line. */
  lemma {:induction false} LinesOfAppended(c: string, l: string)
    requires Terminated(c) && '\n' !in l
    ensures Lines(c + l + "\n") == Lines(c) + [StripCr(l)]
    decreases |c|
  {
    hide Lines, Find;
    AroundFirst(c, '\n');
    if c == "" {
      OneLine(l);
      EmptyHasNoLines();
      assert c + l == l;
    } else {
      var n := Find(c, '\n');
      LinesOfAppended(c[n + 1..], l);
      AppendedStep(c[..n], c[n + 1..], l);
    }
  }

  lemma EmptyHasNoLines()
    ensures Lines("") == []
  {
  }

  lemma UnfinishedLine(c: string)
    requires c != "" && '\n' !in c
    ensures Lines(c) == [c]
  {
    AroundFirst(c, '\n');
  }

  lemma GluedStep(a: string, b: string, l: string)
    requires '\n' !in a && Lines(b) != []
    requires Lines(b + l + "\n") == Lines(b)[..|Lines(b)| - 1] + [StripCr(Lines(b)[|Lines(b)| - 1] + l)]
    ensures var c := a + ("\n" + b);
            && |Lines(c)| == |Lines(b)| + 1 && Lines(c)[|Lines(b)|] == Lines(b)[|Lines(b)| - 1]
            && Lines(c + l + "\n") == Lines(c)[..|Lines(c)| - 1] + [StripCr(Lines(c)[|Lines(c)| - 1] + l)]
  {
    hide *;
    LinesCons(a, b);
    LinesCons(a, b + l + "\n");
    Regroup(a, "\n", b, l, "\n");
    var more := Lines(b);
    assert ([StripCr(a)] + more)[..|more|] == [StripCr(a)] + more[..|more| - 1];
  }

  /** Appending to a file whose last line is unfinished glues the text to that line. */
  lemma {:induction false} LinesOfGlued(c: string, l: string)
    requires !Terminated(c) && '\n' !in l
    ensures Lines(c) != [] && Lines(c)[|Lines(c)| - 1] != ""
    ensures Lines(c + l + "\n") == Lines(c)[..|Lines(c)| - 1] + [StripCr(Lines(c)[|Lines(c)| - 1] + l)]
    decreases |c|
  {
    hide Lines, Find;
    AroundFirst(c, '\n');
    var n := Find(c, '\n');
    if n == |c| {
      OneLine(c + l);
      UnfinishedLine(c);
    } else {
      LinesOfGlued(c[n + 1..], l);
      GluedStep(c[..n], c[n + 1..], l);
    }
  }

  function StripAll(ls: seq<string>): seq<string> {
    if ls == [] then [] else [StripCr(ls[0])] + StripAll(ls[1..])
  }

  lemma {:induction false} LinesOfJoin(ls: seq<string>)
    requires ls != [] && forall l :: l in ls ==> '\n' !in l
    ensures Lines(Join(ls, '\n') + "\n") == StripAll(ls)
  {
    if |ls| == 1 {
      OneLine(ls[0]);
    } else {
      var rest := Join(ls[1..], '\n') + "\n";
      assert Join(ls, '\n') + "\n" == ls[0] + ("\n" + rest);
      LinesCons(ls[0], rest);
      LinesOfJoin(ls[1..]);
    }
  }

  // ---------------------------------------------------------------------------------------------
  // Fields
  // ---------------------------------------------------------------------------------------------

  lemma FieldsCons(a: string, b: string)
    requires ':' !in a
    ensures Fields(a + (":" + b)) == [a] + Fields(b)
  {
    var s := a + (":" + b);
    FindAfter(a, ':', ":" + b);
    assert s[..|a|] == a && s[|a| + 1..] == b;
  }

  lemma OneField(a: string)
    requires ':' !in a
    ensures Fields(a) == [a]
  {
    FindAfter(a, ':', "");
    assert a + "" == a;
  }

  lemma {:induction false} FieldsOfJoin(fs: seq<string>)
    requires fs != [] && forall f :: f in fs ==> ':' !in f
    ensures Fields(Join(fs, ':')) == fs
  {
    if |fs| == 1 {
      OneField(fs[0]);
    } else {
      var rest := Join(fs[1..], ':');
      assert Join(fs, ':') == fs[0] + (":" + rest);
      FieldsCons(fs[0], rest);
      FieldsOfJoin(fs[1..]);
    }
  }

  lemma Associate(a: string, b: string, c: string)
    ensures a + b + c == a + (b + c)
  {
  }

  lemma GluedToFirst(a: string, b: string)
    requires ':' !in a
    ensures Fields(a + b) == [a + Fields(b)[0]] + Fields(b)[1..]
  {
    hide Find, Fields;
    AroundFirst(b, ':');
    var m := Find(b, ':');
    if m == |b| {
      OneField(b);
      OneField(a + b);
    } else {
      var b0, b1 := b[..m], b[m + 1..];
      FieldsCons(b0, b1);
      FieldsCons(a + b0, b1);
      Associate(a, b0, ":" + b1);
      assert b == b0 + (":" + b1);
    }
  }

  lemma GluedFieldsStep(a: string, b: string, l: string)
    requires ':' !in a
    requires Fields(b + l) == Fields(b)[..|Fields(b)| - 1]
                              + [Fields(b)[|Fields(b)| - 1] + Fields(l)[0]] + Fields(l)[1..]
    ensures var c := a + (":" + b);
            Fields(c + l) == Fields(c)[..|Fields(c)| - 1] + [Fields(c)[|Fields(c)| - 1] + Fields(l)[0]] + Fields(l)[1..]
  {
    hide *;
    FieldsCons(a, b);
    FieldsCons(a, b + l);
    assert a + (":" + b) + l == a + (":" + (b + l));
    var more := Fields(b);
    assert ([a] + more)[..|more|] == [a] + more[..|more| - 1];
  }

  /** Gluing two texts merges the last field of one with the first of the other. */
  lemma {:induction false} FieldsOfGlued(a: string, b: string)
    ensures Fields(a + b) ==
            Fields(a)[..|Fields(a)| - 1] + [Fields(a)[|Fields(a)| - 1] + Fields(b)[0]] + Fields(b)[1..]
    decreases |a|
  {
    hide Fields, Find;
    AroundFirst(a, ':');
    var n := Find(a, ':');
    if n == |a| {
      GluedToFirst(a, b);
      OneField(a);
    } else {
      FieldsOfGlued(a[n + 1..], b);
      GluedFieldsStep(a[..n], a[n + 1..], b);
    }
  }

  /** Only the last field of a line can lose a carriage return. */
  lemma FieldsOfStripped(l: string)
    ensures |Fields(StripCr(l))| == |Fields(l)|
    ensures forall k :: 0 <= k < |Fields(l)| - 1 ==> Fields(StripCr(l))[k] == Fields(l)[k]
  {
    var s := StripCr(l);
    if s != l {
      OneField("\r");
      assert l == s + "\r";
      FieldsOfGlued(s, "\r");
    }
  }

  lemma {:induction false} FieldsHaveNoColon(s: string)
    ensures forall f :: f in Fields(s) ==> ':' !in f
    decreases |s|
  {
    var n := Find(s, ':');
    if n < |s| {
      FieldsHaveNoColon(s[n + 1..]);
    }
  }

  /** A line begins with `name:` exactly when it has a second field and its first is `name`. */
  lemma StartsWithField(l: string, name: string)
    requires ':' !in name
    ensures name + ":" <= l <==> |Fields(l)| > 1 && Fields(l)[0] == name
  {
    AroundFirst(l, ':');
    if name + ":" <= l {
      var rest := l[|name| + 1..];
      assert l == name + (":" + rest);
      FieldsCons(name, rest);
    }
  }

  // ---------------------------------------------------------------------------------------------
  // Numbers
  // ---------------------------------------------------------------------------------------------

  predicate IsDigit(c: char) { '0' <= c <= '9' }

  predicate AllDigits(s: string) {
    forall i :: 0 <= i < |s| ==> IsDigit(s[i])
  }

  function Value(s: string): nat
    requires AllDigits(s)
  {
    if s == "" then 0 else Value(s[..|s| - 1]) * 10 + (s[|s| - 1] as int - '0' as int)
  }

  /** `str::parse::<u32>`: an optional plus sign, then digits, within 32 bits. */
  function ParseU32(s: string): Option<nat> {
    var d := if s != "" && s[0] == '+' then s[1..] else s;
    if d == "" || !AllDigits(d) || Value(d) >= 0x1_0000_0000 then None else Some(Value(d))
  }

  function Digit(n: nat): char
    requires n < 10
  {
    ('0' as int + n) as char
  }

  function Decimal(n: nat): string {
    if n < 10 then [Digit(n)] else Decimal(n / 10) + [Digit(n % 10)]
  }

  lemma {:induction false} DecimalValue(n: nat)
    ensures Decimal(n) != "" && AllDigits(Decimal(n)) && Value(Decimal(n)) == n
  {
    if n >= 10 {
      DecimalValue(n / 10);
      var s := Decimal(n);
      assert s[..|s| - 1] == Decimal(n / 10);
    } else {
      assert Decimal(n)[..0] == "";
    }
  }

  lemma DecimalRoundTrip(n: nat)
    requires n < 0x1_0000_0000
    ensures ParseU32(Decimal(n)) == Some(n)
    ensures ':' !in Decimal(n) && '\n' !in Decimal(n) && '\r' !in Decimal(n)
  {
    DecimalValue(n);
  }

  /** What is read as a number: digits, with or without a plus sign before them, whose value fits 32 bits. */
  lemma ParseU32Exactly(s: string, n: nat)
    ensures ParseU32(s) == Some(n) <==>
            n < 4294967296 && exists d :: d != "" && AllDigits(d) && Value(d) == n && (s == d || s == "+" + d)
  {
    if s != "" && s[0] == '+' {
      assert s == "+" + s[1..];
    }
    if exists d :: d != "" && AllDigits(d) && Value(d) == n && (s == d || s == "+" + d) {
      var d :| d != "" && AllDigits(d) && Value(d) == n && (s == d || s == "+" + d);
      assert IsDigit(d[0]);
      assert s == "+" + d ==> s[1..] == d;
    }
  }

  /** A line's own carriage return is no part of it. */
  lemma LineWithCr(a: string, b: string)
    requires '\n' !in a
    ensures Lines(a + "\r\n" + b) == [a] + Lines(b)
  {
    var s := a + "\r\n" + b;
    assert s[|a| + 1] == '\n' && forall i :: 0 <= i < |a| + 1 ==> s[i] != '\n';
    assert Find(s, '\n') == |a| + 1;
    assert s[..|a| + 1] == a + "\r" && s[|a| + 2..] == b;
    assert (a + "\r")[..|a|] == a;
  }
}
