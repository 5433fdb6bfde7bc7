/** setIDEntry of pkg/blobstore/build_user_injecting_visitor.go: /etc/passwd and
    /etc/group with exactly one entry for the build user. */
module IdEntry {
  import opened LayerTree
  import opened Sorting
  import opened Text

  // ---- Lines ----

  /** The longest line that fits the default buffer of bufio.Scanner together
      with its newline. */
  const MAX_LINE := 65535

  /** Lines end at newlines; a last line without one counts, an empty one not. */
  function RawLines(s: string): seq<string>
  {
    if s == "" then []
    else
      var i := Find(s, '\n');
      if i == |s| then [s] else [s[..i]] + RawLines(s[i + 1..])
  }

  function DropCR(line: string): string
  {
    if line != "" && line[|line| - 1] == '\r' then line[..|line| - 1] else line
  }

  /** Every line with its newline. */
  function Terminated(lines: seq<string>): string
  {
    if lines == [] then "" else lines[0] + ['\n'] + Terminated(lines[1..])
  }

  lemma {:induction false} LinesRoundTrip(lines: seq<string>)
    requires forall i :: 0 <= i < |lines| ==> '\n' !in lines[i]
    ensures RawLines(Terminated(lines)) == lines
  {
    if lines != [] {
      var rest := Terminated(lines[1..]);
      LinesRoundTrip(lines[1..]);
      FindAppend(lines[0], '\n', rest);
      var s := lines[0] + ['\n'] + rest;
      assert s[..|lines[0]|] == lines[0] && s[|lines[0]| + 1..] == rest;
    }
  }

  /** The lines and their newlines are the text, but for a missing last newline. */
  lemma {:induction false} LinesAreText(s: string)
    ensures Terminated(RawLines(s)) == if Unterminated(s) then s + ['\n'] else s
  {
    if s != "" {
      var i := Find(s, '\n');
      if i == |s| {
        assert s[|s| - 1] != '\n';
        assert RawLines(s)[1..] == [];
      } else {
        LinesAreText(s[i + 1..]);
        assert RawLines(s)[0] == s[..i] && RawLines(s)[1..] == RawLines(s[i + 1..]);
        RestIsAlike(s, i);
      }
    }
  }

  lemma RestIsAlike(s: string, i: nat)
    requires i < |s| && s[i] == '\n'
    ensures Unterminated(s) <==> Unterminated(s[i + 1..])
    ensures s[..i] + ['\n'] + s[i + 1..] == s
    ensures s[..i] + ['\n'] + (s[i + 1..] + ['\n']) == s + ['\n']
  {
    assert i + 1 < |s| ==> s[i + 1..][|s| - i - 2] == s[|s| - 1];
  }

  lemma {:induction false} RawLineChars(s: string, i: nat)
    requires i < |RawLines(s)|
    ensures '\n' !in RawLines(s)[i]
    ensures forall c :: c in RawLines(s)[i] ==> c in s
  {
    var j := Find(s, '\n');
    if j < |s| && i > 0 {
      RawLineChars(s[j + 1..], i - 1);
    }
  }

  // ---- Fields ----

  function SplitN(s: string, n: nat): (fields: seq<string>)
    requires n >= 1
    ensures 1 <= |fields| <= n
  {
    var i := Find(s, ':');
    if n == 1 || i == |s| then [s] else [s[..i]] + SplitN(s[i + 1..], n - 1)
  }

  function Fields(line: string): seq<string>
  {
    SplitN(line, 7)
  }

  function JoinFields(fields: seq<string>): string
    requires fields != []
  {
    if |fields| == 1 then fields[0] else fields[0] + [':'] + JoinFields(fields[1..])
  }

  /** Splitting undoes joining; the last of n fields may hold colons. */
  lemma {:induction false} SplitJoin(fields: seq<string>, n: nat)
    requires 1 <= |fields| <= n
    requires forall i :: 0 <= i < |fields| && i < n - 1 ==> ':' !in fields[i]
    ensures SplitN(JoinFields(fields), n) == fields
  {
    if |fields| == 1 {
      if n > 1 {
        FindAbsent(fields[0], ':');
      }
    } else {
      var rest := JoinFields(fields[1..]);
      SplitJoin(fields[1..], n - 1);
      SplitCons(fields[0], rest, n);
      assert [fields[0]] + fields[1..] == fields;
    }
  }

  lemma SplitCons(a: string, b: string, n: nat)
    requires ':' !in a && n >= 2
    ensures SplitN(a + [':'] + b, n) == [a] + SplitN(b, n - 1)
  {
    FindAppend(a, ':', b);
    var s := a + [':'] + b;
    assert s[..|a|] == a && s[|a| + 1..] == b;
  }

  /** Splitting loses nothing. */
  lemma {:induction false} JoinSplit(s: string, n: nat)
    requires n >= 1
    ensures JoinFields(SplitN(s, n)) == s
  {
    var i := Find(s, ':');
    if n > 1 && i < |s| {
      JoinSplit(s[i + 1..], n - 1);
      JoinCons(s[..i], SplitN(s[i + 1..], n - 1));
      AtColon(s, i);
    }
  }

  lemma AtColon(s: string, i: nat)
    requires i < |s| && s[i] == ':'
    ensures s[..i] + [':'] + s[i + 1..] == s
  {
  }

  lemma {:induction false} JoinedChars(fields: seq<string>, c: char)
    requires fields != [] && c != ':' && forall i :: 0 <= i < |fields| ==> c !in fields[i]
    ensures c !in JoinFields(fields)
  {
    if |fields| > 1 {
      JoinedChars(fields[1..], c);
    }
  }

  /** A joined line ends as its last field does, or with a colon. */
  lemma {:induction false} JoinedEnd(fields: seq<string>)
    requires fields != [] && '\r' !in fields[|fields| - 1]
    ensures DropCR(JoinFields(fields)) == JoinFields(fields)
  {
    if |fields| > 1 {
      var rest := JoinFields(fields[1..]);
      JoinedEnd(fields[1..]);
      var s := fields[0] + [':'] + rest;
      assert s[|s| - 1] == if rest == "" then ':' else rest[|rest| - 1];
    }
  }

  lemma FieldOf(s: string, n: nat, i: nat)
    requires n > 1 && Find(s, ':') < |s| && i < |SplitN(s, n)|
    ensures i == 0 ==> SplitN(s, n)[i] == s[..Find(s, ':')]
    ensures i > 0 ==> i - 1 < |SplitN(s[Find(s, ':') + 1..], n - 1)| &&
                      SplitN(s, n)[i] == SplitN(s[Find(s, ':') + 1..], n - 1)[i - 1]
  {
  }

  lemma {:induction false} FieldInJoined(fields: seq<string>, i: nat, c: char)
    requires i < |fields| && c in fields[i]
    ensures c in JoinFields(fields)
  {
    if i > 0 {
      FieldInJoined(fields[1..], i - 1, c);
    }
  }

  lemma FieldLacks(s: string, n: nat, i: nat, c: char)
    requires n >= 1 && i < |SplitN(s, n)| && c !in s
    ensures c !in SplitN(s, n)[i]
  {
    JoinSplit(s, n);
    if c in SplitN(s, n)[i] {
      FieldInJoined(SplitN(s, n), i, c);
    }
  }

  lemma {:induction false} FieldLacksColon(s: string, n: nat, i: nat)
    requires i < n - 1 && i < |SplitN(s, n)|
    ensures ':' !in SplitN(s, n)[i]
  {
    var j := Find(s, ':');
    if j < |s| {
      FieldOf(s, n, i);
    }
    if j < |s| && i > 0 {
      FieldLacksColon(s[j + 1..], n - 1, i - 1);
    }
  }

  // ---- Ids ----

  const MIN_INT := -0x8000_0000_0000_0000
  const MAX_INT := 0x7FFF_FFFF_FFFF_FFFF

  /** Go's int on a 64-bit machine. */
  type Int = x: int | MIN_INT <= x <= MAX_INT

  /** strconv.Atoi: an optional sign and digits, within the range of int. */
  function Atoi(s: string): Option<int>
  {
    var digits := if s != "" && (s[0] == '-' || s[0] == '+') then s[1..] else s;
    if digits == "" || !AllDigits(digits) then None
    else
      var n: int := if s[0] == '-' then -(DigitsValue(digits) as int) else DigitsValue(digits);
      if MIN_INT <= n <= MAX_INT then Some(n) else None
  }

  /** %d. */
  function Print(n: int): string
  {
    if n < 0 then ['-'] + Decimal(-n) else Decimal(n)
  }

  lemma AtoiDigits(digits: string)
    requires digits != "" && AllDigits(digits)
    ensures DigitsValue(digits) <= MAX_INT ==> Atoi(digits) == Some(DigitsValue(digits))
    ensures DigitsValue(digits) <= MAX_INT ==> Atoi(['+'] + digits) == Some(DigitsValue(digits))
    ensures DigitsValue(digits) <= -MIN_INT ==> Atoi(['-'] + digits) == Some(-(DigitsValue(digits) as int))
  {
    assert IsDigit(digits[0]);
    assert (['-'] + digits)[1..] == digits && (['+'] + digits)[1..] == digits;
  }

  /** Nothing but digits after an optional sign reads as a number. */
  lemma AtoiShape(s: string)
    requires Atoi(s).Some?
    ensures s != "" && (IsDigit(s[0]) || ((s[0] == '+' || s[0] == '-') && |s| >= 2))
    ensures forall i :: 1 <= i < |s| ==> IsDigit(s[i])
    ensures MIN_INT <= Atoi(s).value <= MAX_INT
  {
    if s[0] == '+' || s[0] == '-' {
      assert forall i :: 1 <= i < |s| ==> s[1..][i - 1] == s[i];
    }
  }

  lemma PrintReads(n: Int)
    ensures Atoi(Print(n)) == Some(n)
  {
    var m: int := n;
    SignedReads(Decimal(if m < 0 then -m else m), n);
  }

  lemma SignedReads(digits: string, n: Int)
    requires digits != "" && AllDigits(digits) && (DigitsValue(digits) as int == if n < 0 then -(n as int) else n)
    ensures Atoi(if n < 0 then ['-'] + digits else digits) == Some(n)
  {
    AtoiDigits(digits);
  }

  /** A printed number fits into a field. */
  lemma PrintIsField(n: int)
    ensures ':' !in Print(n) && '\n' !in Print(n)
  {
    var digits := Decimal(if n < 0 then -n else n);
    DigitsLack(digits, ':');
    DigitsLack(digits, '\n');
  }

  // ---- Entries ----

  /** The third field of the line reads as the id. */
  predicate Carries(line: string, id: int)
  {
    |Fields(line)| >= 3 && Atoi(Fields(line)[2]) == Some(id)
  }

  datatype Owner = Owner(name: string, shell: string, members: string)

  /** What an entry for the id says; what it leaves out stays. */
  function Described(line: string, o: Owner): Owner
  {
    var fields := Fields(line);
    Owner(fields[0], if |fields| == 7 then fields[6] else o.shell, if |fields| > 3 then fields[3] else o.members)
  }

  /** The last entry for the id decides, field by field. */
  function Picked(lines: seq<string>, id: int, o: Owner): Owner
  {
    if lines == [] then o
    else
      var (before, last) := (Picked(lines[..|lines| - 1], id, o), lines[|lines| - 1]);
      if Carries(last, id) then Described(last, before) else before
  }

  function Kept(lines: seq<string>, id: int): seq<string>
  {
    if lines == [] then []
    else
      var last := lines[|lines| - 1];
      Kept(lines[..|lines| - 1], id) + if Carries(last, id) then [] else [last]
  }

  function Tokens(data: string): seq<string>
  {
    DropCRs(RawLines(data))
  }

  function DropCRs(raw: seq<string>): seq<string>
  {
    seq(|raw|, i requires 0 <= i < |raw| => DropCR(raw[i]))
  }

  predicate Unterminated(data: string)
  {
    data != "" && data[|data| - 1] != '\n'
  }

  /** A last line without a newline may fill the buffer: tar.Reader reports the
      end of the file along with its last bytes. */
  function LineLimit(last: bool, unterminated: bool): nat
  {
    if last && unterminated then MAX_LINE + 1 else MAX_LINE
  }

  predicate Fits(raw: seq<string>, unterminated: bool, i: nat)
    requires i < |raw|
  {
    |raw[i]| <= LineLimit(i + 1 == |raw|, unterminated)
  }

  predicate LinesFit(raw: seq<string>, unterminated: bool)
  {
    forall i :: 0 <= i < |raw| ==> Fits(raw, unterminated, i)
  }

  predicate Scannable(data: string)
  {
    LinesFit(RawLines(data), Unterminated(data))
  }

  /** An entry printer, without the final newline. */
  type Printer = Owner -> string

  function Default(name: string): Owner
  {
    Owner(name, "/bin/sh", "")
  }

  /** All lines but those for the id, then one entry for it. */
  function Rewritten(data: string, id: int, name: string, printer: Printer): string
  {
    var lines := Tokens(data);
    Terminated(Kept(lines, id) + [printer(Picked(lines, id, Default(name)))])
  }

  function Join(lines: seq<string>): string
    requires lines != []
  {
    if |lines| == 1 then lines[0] else Join(lines[..|lines| - 1]) + ['\n'] + lines[|lines| - 1]
  }

  /** The entry brings its own newline, so that joining terminates every line. */
  lemma {:induction false} JoinIsTerminated(lines: seq<string>, entry: string)
    ensures Join(lines + [entry + ['\n']]) == Terminated(lines + [entry])
  {
    var all := lines + [entry + ['\n']];
    if lines == [] {
      assert all[0] == entry + ['\n'];
      assert ([entry])[1..] == [];
    } else {
      var (init, last) := (lines[..|lines| - 1], lines[|lines| - 1]);
      assert all[..|all| - 1] == lines;
      TerminatedSnoc(lines, entry);
      JoinLines(lines);
    }
  }

  lemma {:induction false} TerminatedSnoc(lines: seq<string>, last: string)
    ensures Terminated(lines + [last]) == Terminated(lines) + last + ['\n']
  {
    var all := lines + [last];
    if lines == [] {
      assert all[1..] == [];
    } else {
      assert all[1..] == lines[1..] + [last];
      TerminatedSnoc(lines[1..], last);
    }
  }

  lemma {:induction false} JoinLines(lines: seq<string>)
    requires lines != []
    ensures Terminated(lines) == Join(lines) + ['\n']
  {
    var (init, last) := (lines[..|lines| - 1], lines[|lines| - 1]);
    assert lines == init + [last];
    TerminatedSnoc(init, last);
    if init != [] {
      JoinLines(init);
    }
  }

  /** The loop body: does the line carry the id, and what does it say? */
  method ReadEntry(line: string, id: int, o: Owner) returns (mine: bool, o': Owner)
    ensures mine <==> Carries(line, id)
    ensures o' == if mine then Described(line, o) else o
  {
    o' := o;
    var fields := SplitN(line, 7);
    if |fields| < 3 || Atoi(fields[2]) != Some(id) {
      return false, o;
    }
    o' := o'.(name := fields[0]);
    if |fields| == 7 {
      o' := o'.(shell := fields[6]);
    }
    if |fields| > 3 {
      o' := o'.(members := fields[3]);
    }
    mine := true;
  }

  lemma OneLineMore(lines: seq<string>, n: nat, id: int, o: Owner)
    requires n < |lines|
    ensures Kept(lines[..n + 1], id) == Kept(lines[..n], id) + if Carries(lines[n], id) then [] else [lines[n]]
    ensures Picked(lines[..n + 1], id, o) ==
            if Carries(lines[n], id) then Described(lines[n], Picked(lines[..n], id, o)) else Picked(lines[..n], id, o)
  {
    assert lines[..n + 1][..n] == lines[..n];
  }

  /** setIDEntry; None is the scanner's error for a line that is too long. */
  method SetIDEntry(data: string, id: int, defaultName: string, printer: Printer) returns (r: Option<string>)
    ensures r.Some? <==> Scannable(data)
    ensures r.Some? ==> r.value == Rewritten(data, id, defaultName, printer)
  {
    var ok, lines, o := ReadLines(RawLines(data), Unterminated(data), id, Default(defaultName));
    if !ok {
      return None;
    }
    JoinIsTerminated(lines, printer(o));
    r := Some(Join(lines + [printer(o) + ['\n']]));
  }

  /** The loop of setIDEntry over the scanner's lines. */
  method ReadLines(raw: seq<string>, unterminated: bool, id: int, default: Owner)
    returns (ok: bool, lines: seq<string>, o: Owner)
    ensures ok <==> LinesFit(raw, unterminated)
    ensures ok ==> lines == Kept(DropCRs(raw), id) && o == Picked(DropCRs(raw), id, default)
  {
    ghost var tokens := DropCRs(raw);
    lines, o := [], default;
    for n := 0 to |raw|
      invariant forall i :: 0 <= i < n ==> Fits(raw, unterminated, i)
      invariant ReadSoFar(tokens, n, id, default, lines, o)
    {
      if !Fits(raw, unterminated, n) {
        return false, lines, o;
      }
      lines, o := ReadLine(DropCR(raw[n]), id, lines, o, tokens, n, default);
    }
    assert tokens[..|raw|] == tokens;
    ok := true;
  }

  ghost predicate ReadSoFar(tokens: seq<string>, n: nat, id: int, default: Owner, lines: seq<string>, o: Owner)
  {
    n <= |tokens| && lines == Kept(tokens[..n], id) && o == Picked(tokens[..n], id, default)
  }

  method ReadLine(line: string, id: int, lines: seq<string>, o: Owner, ghost tokens: seq<string>, ghost n: nat,
                  ghost default: Owner) returns (lines': seq<string>, o': Owner)
    requires ReadSoFar(tokens, n, id, default, lines, o) && n < |tokens| && tokens[n] == line
    ensures ReadSoFar(tokens, n + 1, id, default, lines', o')
  {
    var mine;
    mine, o' := ReadEntry(line, id, o);
    lines' := if mine then lines else lines + [line];
    OneLineMore(tokens, n, id, default);
  }

  // ---- The printers ----

  datatype UnixUser = UnixUser(uid: Int, gid: Int, name: string)

  function PasswdLine(user: UnixUser): Printer
  {
    (o: Owner) => JoinFields([o.name, "x", Print(user.uid), Print(user.gid), "", "/tmp", o.shell])
  }

  function GroupLine(user: UnixUser): Printer
  {
    (o: Owner) => JoinFields([o.name, "x", Print(user.gid), o.members])
  }

  /** Names and members hold no separator, and nothing holds a newline or ends
      in a carriage return. */
  ghost predicate Clean(o: Owner)
  {
    && ':' !in o.name && ':' !in o.members
    && '\n' !in o.name && '\n' !in o.shell && '\n' !in o.members
    && '\r' !in o.shell && '\r' !in o.members
  }

  /** An entry is one line, carries the id, and prints the same when read back. */
  ghost predicate Stable(printer: Printer, id: int)
  {
    forall o, shell, members :: Clean(o) ==> StableAt(printer, id, o, shell, members)
  }

  ghost predicate StableAt(printer: Printer, id: int, o: Owner, shell: string, members: string)
  {
    && '\n' !in printer(o) && DropCR(printer(o)) == printer(o) && Carries(printer(o), id)
    && printer(Described(printer(o), Owner("", shell, members))) == printer(o)
  }

  /** A line for the owner with fields that hold no separator or newline. */
  lemma LineReads(fields: seq<string>)
    requires 1 <= |fields| <= 7 && '\r' !in fields[|fields| - 1]
    requires forall i :: 0 <= i < |fields| ==> '\n' !in fields[i] && (i < 6 ==> ':' !in fields[i])
    ensures var line := JoinFields(fields); '\n' !in line && DropCR(line) == line && Fields(line) == fields
  {
    SplitJoin(fields, 7);
    JoinedChars(fields, '\n');
    JoinedEnd(fields);
  }

  lemma PasswdReads(user: UnixUser, o: Owner)
    requires Clean(o)
    ensures var line := PasswdLine(user)(o);
            && '\n' !in line && DropCR(line) == line
            && Fields(line) == [o.name, "x", Print(user.uid), Print(user.gid), "", "/tmp", o.shell]
  {
    PrintIsField(user.uid);
    PrintIsField(user.gid);
    LineReads([o.name, "x", Print(user.uid), Print(user.gid), "", "/tmp", o.shell]);
  }

  lemma PasswdStable(user: UnixUser)
    ensures Stable(PasswdLine(user), user.uid)
  {
    forall o, shell, members | Clean(o)
      ensures StableAt(PasswdLine(user), user.uid, o, shell, members)
    {
      PasswdStableAt(user, o, shell, members);
    }
  }

  lemma PasswdStableAt(user: UnixUser, o: Owner, shell: string, members: string)
    requires Clean(o)
    ensures StableAt(PasswdLine(user), user.uid, o, shell, members)
  {
    var line := PasswdLine(user)(o);
    var (uid, gid) := (Print(user.uid), Print(user.gid));
    PasswdReads(user, o);
    PrintReads(user.uid);
    PasswdDescribes(line, o.name, uid, gid, o.shell, Owner("", shell, members));
    assert PasswdLine(user)(Owner(o.name, o.shell, gid)) == line;
  }

  lemma PasswdDescribes(line: string, name: string, uid: string, gid: string, shell: string, o: Owner)
    requires Fields(line) == [name, "x", uid, gid, "", "/tmp", shell]
    ensures Described(line, o) == Owner(name, shell, gid)
    ensures forall id :: Atoi(uid) == Some(id) ==> Carries(line, id)
  {
  }

  lemma GroupReads(user: UnixUser, o: Owner)
    requires Clean(o)
    ensures var line := GroupLine(user)(o);
            && '\n' !in line && DropCR(line) == line
            && Fields(line) == [o.name, "x", Print(user.gid), o.members]
  {
    PrintIsField(user.gid);
    LineReads([o.name, "x", Print(user.gid), o.members]);
  }

  lemma GroupStable(user: UnixUser)
    ensures Stable(GroupLine(user), user.gid)
  {
    forall o, shell, members | Clean(o)
      ensures StableAt(GroupLine(user), user.gid, o, shell, members)
    {
      GroupReads(user, o);
      PrintReads(user.gid);
    }
  }

  // ---- What the result is ----

  lemma TokensAreLines(data: string)
    requires '\r' !in data
    ensures Tokens(data) == RawLines(data)
    ensures forall i :: 0 <= i < |RawLines(data)| ==> '\n' !in RawLines(data)[i] && '\r' !in RawLines(data)[i]
  {
    forall i | 0 <= i < |RawLines(data)|
      ensures '\n' !in RawLines(data)[i] && '\r' !in RawLines(data)[i]
    {
      RawLineChars(data, i);
    }
  }

  lemma DescribedIsClean(line: string, o: Owner)
    requires Clean(o) && '\n' !in line && '\r' !in line
    ensures Clean(Described(line, o))
  {
    CleanField(line, 0);
    if |Fields(line)| > 3 {
      CleanField(line, 3);
    }
    if |Fields(line)| == 7 {
      CleanField(line, 6);
    }
  }

  lemma CleanField(line: string, i: nat)
    requires i < |Fields(line)| && '\n' !in line && '\r' !in line
    ensures '\n' !in Fields(line)[i] && '\r' !in Fields(line)[i] && (i < 6 ==> ':' !in Fields(line)[i])
  {
    FieldLacks(line, 7, i, '\n');
    FieldLacks(line, 7, i, '\r');
    if i < 6 {
      FieldLacksColon(line, 7, i);
    }
  }

  lemma {:induction false} PickedIsClean(lines: seq<string>, id: int, o: Owner)
    requires Clean(o) && forall i :: 0 <= i < |lines| ==> '\n' !in lines[i] && '\r' !in lines[i]
    ensures Clean(Picked(lines, id, o))
  {
    if lines != [] {
      var (init, last) := (lines[..|lines| - 1], lines[|lines| - 1]);
      PickedIsClean(init, id, o);
      if Carries(last, id) {
        DescribedIsClean(last, Picked(init, id, o));
      }
    }
  }

  lemma {:induction false} KeptLines(lines: seq<string>, id: int, x: string)
    ensures x in Kept(lines, id) <==> x in lines && !Carries(x, id)
  {
    if lines != [] {
      var (init, last) := (lines[..|lines| - 1], lines[|lines| - 1]);
      KeptLines(init, id, x);
      assert lines == init + [last];
    }
  }

  /** r is the lines that do not carry the id, in their order. */
  ghost predicate KeptAt(lines: seq<string>, id: int, r: seq<string>, at: seq<nat>)
  {
    && Rising(|lines|, at) && |at| == |r|
    && (forall i :: 0 <= i < |r| ==> r[i] == lines[at[i]] && !Carries(r[i], id))
    && (forall j {:trigger Chosen(at, j)} :: 0 <= j < |lines| && !Carries(lines[j], id) ==> Chosen(at, j))
  }

  lemma {:induction false} KeptInOrder(lines: seq<string>, id: int) returns (at: seq<nat>)
    ensures KeptAt(lines, id, Kept(lines, id), at)
  {
    at := [];
    if lines != [] {
      var n := |lines| - 1;
      at := KeptInOrder(lines[..n], id);
      assert lines == lines[..n] + [lines[n]];
      KeptOneMore(lines[..n], id, Kept(lines[..n], id), at, lines[n]);
      if Carries(lines[n], id) {
        assert Kept(lines, id) == Kept(lines[..n], id);
      } else {
        at := at + [n];
      }
    }
  }

  lemma KeptOneMore(lines: seq<string>, id: int, r: seq<string>, at: seq<nat>, line: string)
    requires KeptAt(lines, id, r, at)
    ensures Carries(line, id) ==> KeptAt(lines + [line], id, r, at)
    ensures !Carries(line, id) ==> KeptAt(lines + [line], id, r + [line], at + [|lines|])
  {
    var (lines', at') := (lines + [line], at + [|lines|]);
    assert at'[|at|] == |lines|;
    forall j | 0 <= j < |lines'| && !Carries(lines'[j], id)
      ensures Chosen(at', j) && (Carries(line, id) ==> Chosen(at, j))
    {
      assert j < |lines| ==> lines'[j] == lines[j] && Chosen(at, j);
    }
  }

  lemma {:induction false} NothingToDrop(lines: seq<string>, id: int, o: Owner)
    requires forall x :: x in lines ==> !Carries(x, id)
    ensures Kept(lines, id) == lines && Picked(lines, id, o) == o
  {
    if lines != [] {
      NothingToDrop(lines[..|lines| - 1], id, o);
      assert lines[|lines| - 1] in lines;
    }
  }

  /** The entry that a rewrite ends with. */
  function Entry(data: string, id: int, name: string, printer: Printer): string
  {
    printer(Picked(Tokens(data), id, Default(name)))
  }

  /** The result has the lines for other ids, in order, and then one line for
      this id. */
  lemma ExactlyOneEntry(data: string, id: int, name: string, printer: Printer)
    requires Stable(printer, id) && '\r' !in data && ':' !in name && '\n' !in name
    ensures var (out, entry) := (Rewritten(data, id, name, printer), Entry(data, id, name, printer));
            && RawLines(out) == Kept(RawLines(data), id) + [entry] && Tokens(out) == RawLines(out)
            && Carries(entry, id)
            && forall x :: x in Kept(RawLines(data), id) <==> x in RawLines(data) && !Carries(x, id)
  {
    var (entry, kept) := (Entry(data, id, name, printer), Kept(RawLines(data), id));
    var owner := Picked(Tokens(data), id, Default(name));
    TokensAreLines(data);
    PickedIsClean(Tokens(data), id, Default(name));
    assert StableAt(printer, id, owner, "", "");
    forall x
      ensures x in kept <==> x in RawLines(data) && !Carries(x, id)
    {
      KeptLines(RawLines(data), id, x);
    }
    forall i | 0 <= i < |kept|
      ensures '\n' !in kept[i] && '\r' !in kept[i]
    {
      assert kept[i] in RawLines(data);
    }
    LinesRoundTrip(kept + [entry]);
    SameTokens(kept, entry);
  }

  lemma SameTokens(kept: seq<string>, entry: string)
    requires DropCR(entry) == entry && forall i :: 0 <= i < |kept| ==> '\r' !in kept[i]
    ensures DropCRs(kept + [entry]) == kept + [entry]
  {
    var lines := kept + [entry];
    forall i | 0 <= i < |lines|
      ensures DropCR(lines[i]) == lines[i]
    {
      assert i < |kept| ==> lines[i] == kept[i];
    }
  }

  lemma EntryLast(kept: seq<string>, entry: string, id: int, o: Owner)
    requires Carries(entry, id) && forall x :: x in kept ==> !Carries(x, id)
    ensures Kept(kept + [entry], id) == kept && Picked(kept + [entry], id, o) == Described(entry, o)
  {
    NothingToDrop(kept, id, o);
    assert (kept + [entry])[..|kept|] == kept;
  }

  /** Read back, the entry describes an owner that prints the same. */
  lemma OwnerIsStable(data: string, id: int, name: string, printer: Printer)
    requires Stable(printer, id) && '\r' !in data && ':' !in name && '\n' !in name
    ensures printer(Described(Entry(data, id, name, printer), Default(name))) == Entry(data, id, name, printer)
  {
    var (entry, o) := (Entry(data, id, name, printer), Default(name));
    var owner := Picked(Tokens(data), id, o);
    TokensAreLines(data);
    PickedIsClean(Tokens(data), id, o);
    assert StableAt(printer, id, owner, o.shell, o.members);
    assert Described(entry, o) == Described(entry, Owner("", o.shell, o.members));
  }

  /** A second rewrite finds the same owner and changes nothing. */
  lemma RewriteIsIdempotent(data: string, id: int, name: string, printer: Printer)
    requires Stable(printer, id) && '\r' !in data && ':' !in name && '\n' !in name
    ensures var out := Rewritten(data, id, name, printer); Rewritten(out, id, name, printer) == out
  {
    var kept := Kept(RawLines(data), id);
    ExactlyOneEntry(data, id, name, printer);
    TokensAreLines(data);
    EntryLast(kept, Entry(data, id, name, printer), id, Default(name));
    OwnerIsStable(data, id, name, printer);
  }

  /** Applying setIDEntry to its own result succeeds, and then changes nothing, if
      and only if the entry and every kept line leave room for a newline. */
  lemma SecondRunSucceedsIff(data: string, id: int, name: string, printer: Printer)
    requires Stable(printer, id) && '\r' !in data && ':' !in name && '\n' !in name
    ensures Scannable(Rewritten(data, id, name, printer)) <==>
            && |Entry(data, id, name, printer)| <= MAX_LINE
            && forall x :: x in Kept(RawLines(data), id) ==> |x| <= MAX_LINE
  {
    var (entry, kept) := (Entry(data, id, name, printer), Kept(RawLines(data), id));
    ExactlyOneEntry(data, id, name, printer);
    TokensAreLines(data);
    EndsInNewline(kept, entry);
    FitIff(kept, entry);
  }

  lemma EndsInNewline(lines: seq<string>, last: string)
    ensures !Unterminated(Terminated(lines + [last]))
  {
    TerminatedSnoc(lines, last);
  }

  lemma FitIff(lines: seq<string>, last: string)
    ensures LinesFit(lines + [last], false) <==> |last| <= MAX_LINE && forall x :: x in lines ==> |x| <= MAX_LINE
  {
    var all := lines + [last];
    assert Fits(all, false, |lines|) <==> |last| <= MAX_LINE;
    assert forall i :: 0 <= i < |lines| ==> lines[i] in lines && (Fits(all, false, i) <==> |lines[i]| <= MAX_LINE);
  }

  /** A long enough user name makes the second run fail. */
  lemma LongNameFails(user: UnixUser)
    requires |user.name| > MAX_LINE && ':' !in user.name && '\n' !in user.name
    ensures Scannable("") && !Scannable(Rewritten("", user.gid, user.name, GroupLine(user)))
  {
    GroupStable(user);
    SecondRunSucceedsIff("", user.gid, user.name, GroupLine(user));
    assert Tokens("") == [];
  }

  /** The last line for the id gives the name, and shell and members if it has
      them. */
  lemma {:induction false} LastLineNames(lines: seq<string>, id: int, o: Owner, i: nat)
    requires i < |lines| && Carries(lines[i], id) && forall j :: i < j < |lines| ==> !Carries(lines[j], id)
    ensures Picked(lines, id, o).name == Fields(lines[i])[0]
    ensures |Fields(lines[i])| == 7 ==> Picked(lines, id, o).shell == Fields(lines[i])[6]
    ensures |Fields(lines[i])| > 3 ==> Picked(lines, id, o).members == Fields(lines[i])[3]
    decreases |lines|
  {
    var n := |lines| - 1;
    if i < n {
      assert lines[..n][i] == lines[i];
      LastLineNames(lines[..n], id, o, i);
    }
  }

  lemma {:induction false} NobodyNamed(lines: seq<string>, id: int, o: Owner)
    requires forall j :: 0 <= j < |lines| ==> !Carries(lines[j], id)
    ensures Picked(lines, id, o) == o
  {
    if lines != [] {
      NobodyNamed(lines[..|lines| - 1], id, o);
    }
  }

  /** The entries, letter by letter. */
  lemma EntryTexts(user: UnixUser, o: Owner)
    ensures PasswdLine(user)(o) == o.name + ":x:" + Print(user.uid) + ":" + Print(user.gid) + "::/tmp:" + o.shell
    ensures GroupLine(user)(o) == o.name + ":x:" + Print(user.gid) + ":" + o.members
  {
    PasswdText(o.name, Print(user.uid), Print(user.gid), o.shell);
    GroupText(o.name, Print(user.gid), o.members);
  }

  lemma PasswdText(name: string, uid: string, gid: string, shell: string)
    ensures JoinFields([name, "x", uid, gid, "", "/tmp", shell]) == name + ":x:" + uid + ":" + gid + "::/tmp:" + shell
  {
    var rest := ["", "/tmp", shell];
    LineHasNeedle(name, uid, gid, rest);
    assert [name, "x", uid, gid] + rest == [name, "x", uid, gid, "", "/tmp", shell];
    JoinCons("/tmp", [shell]);
    JoinCons("", ["/tmp"] + [shell]);
    assert [""] + (["/tmp"] + [shell]) == rest;
    PasswdPieces(name, uid, gid, shell);
  }

  lemma PasswdPieces(name: string, uid: string, gid: string, shell: string)
    ensures name + Between(uid, gid) + ("" + [':'] + ("/tmp" + [':'] + shell)) ==
            name + ":x:" + uid + ":" + gid + "::/tmp:" + shell
  {
    assert ":" + ("" + [':'] + ("/tmp" + [':'] + shell)) == "::/tmp:" + shell;
  }

  lemma GroupText(name: string, gid: string, members: string)
    ensures JoinFields([name, "x", gid, members]) == name + ":x:" + gid + ":" + members
  {
    JoinCons(gid, [members]);
    JoinCons("x", [gid] + [members]);
    JoinCons(name, ["x"] + ([gid] + [members]));
    assert [name] + (["x"] + ([gid] + [members])) == [name, "x", gid, members];
  }

  /** Where the image has no entry for the user, the configured name gets the
      default shell and no members. */
  lemma NewEntries(user: UnixUser)
    ensures Rewritten("", user.uid, user.name, PasswdLine(user)) ==
            user.name + ":x:" + Print(user.uid) + ":" + Print(user.gid) + "::/tmp:" + "/bin/sh" + "\n"
    ensures Rewritten("", user.gid, user.name, GroupLine(user)) ==
            user.name + ":x:" + Print(user.gid) + ":" + "" + "\n"
  {
    EntryTexts(user, Owner(user.name, "/bin/sh", ""));
    assert Tokens("") == [];
    TerminatedSnoc([], PasswdLine(user)(Default(user.name)));
    TerminatedSnoc([], GroupLine(user)(Default(user.name)));
    assert [] + [PasswdLine(user)(Default(user.name))] == [PasswdLine(user)(Default(user.name))];
    assert [] + [GroupLine(user)(Default(user.name))] == [GroupLine(user)(Default(user.name))];
  }

  // ---- Lines of other users ----

  ghost predicate EndsLine(s: string)
  {
    s == "" || s[|s| - 1] == '\n'
  }

  /** `line` stands in the text on its own: between line ends, or at an end. */
  ghost predicate StandsIn(data: string, a: string, line: string, b: string)
  {
    && data == a + line + b && EndsLine(a) && (b == "" || b[0] == '\n')
    && line != "" && '\n' !in line
  }

  lemma {:induction false} LineIsRaw(a: string, line: string, b: string)
    requires EndsLine(a) && (b == "" || b[0] == '\n') && line != "" && '\n' !in line
    ensures line in RawLines(a + (line + b))
    decreases |a|
  {
    if a == "" {
      FirstRaw(line, b);
      assert a + (line + b) == line + b;
    } else {
      var i := Find(a + (line + b), '\n');
      LaterLines(a, line + b);
      LineIsRaw(a[i + 1..], line, b);
      LaterRaw(a + (line + b), i);
    }
  }

  lemma FirstRaw(line: string, b: string)
    requires '\n' !in line && line != "" && (b == "" || b[0] == '\n')
    ensures line in RawLines(line + b)
  {
    FirstLine(line, b);
    assert RawLines(line + b)[0] == line;
  }

  lemma LaterRaw(s: string, i: nat)
    requires i == Find(s, '\n') && i < |s|
    ensures forall line :: line in RawLines(s[i + 1..]) ==> line in RawLines(s)
  {
    assert RawLines(s) == [s[..i]] + RawLines(s[i + 1..]);
  }

  lemma FirstLine(line: string, b: string)
    requires '\n' !in line && (b == "" || b[0] == '\n')
    ensures Find(line + b, '\n') == |line| && (line + b)[..|line|] == line
  {
    var s := line + b;
    assert forall k :: 0 <= k < |line| ==> s[k] == line[k];
    assert b != "" ==> s[|line|] == '\n';
  }

  lemma LaterLines(a: string, rest: string)
    requires a != "" && a[|a| - 1] == '\n'
    ensures var i := Find(a + rest, '\n'); i < |a| && (a + rest)[i + 1..] == a[i + 1..] + rest && EndsLine(a[i + 1..])
  {
    assert (a + rest)[|a| - 1] == '\n';
  }

  lemma {:induction false} LineIsText(lines: seq<string>, line: string) returns (a: string, b: string)
    requires line in lines
    ensures Terminated(lines) == a + line + ['\n'] + b && EndsLine(a)
  {
    if lines[0] == line {
      a, b := "", Terminated(lines[1..]);
    } else {
      var a';
      a', b := LineIsText(lines[1..], line);
      a := lines[0] + ['\n'] + a';
    }
  }

  /** At most one carriage return goes with the newline. */
  ghost predicate ReadsAs(raw: string, line: string)
  {
    raw == line + "\r" || (raw == line && (line == "" || line[|line| - 1] != '\r'))
  }

  lemma TokenOf(lines: seq<string>, raw: string, line: string)
    requires raw in lines && ReadsAs(raw, line)
    ensures line in DropCRs(lines)
  {
    var i :| 0 <= i < |lines| && lines[i] == raw;
    assert DropCR(raw) == line;
    assert DropCRs(lines)[i] == line;
  }

  /** Every line of the file that does not carry the id is a line of the result,
      also a last one without a newline. */
  lemma OtherLinesStay(data: string, id: int, name: string, printer: Printer, a: string, raw: string, b: string,
                       line: string) returns (c: string, d: string)
    requires StandsIn(data, a, raw, b) && ReadsAs(raw, line) && !Carries(line, id)
    ensures Rewritten(data, id, name, printer) == c + line + ['\n'] + d && EndsLine(c)
  {
    LineIsRaw(a, raw, b);
    assert data == a + (raw + b);
    TokenOf(RawLines(data), raw, line);
    KeptLines(Tokens(data), id, line);
    c, d := LineIsText(Kept(Tokens(data), id) + [Entry(data, id, name, printer)], line);
  }

  /** A line and its newline have to fit into 64 KiB. */
  lemma LongestLine(line: string)
    requires '\n' !in line
    ensures Scannable(line) <==> |line| <= 65536
    ensures Scannable(line + ['\n']) <==> |line| <= 65535
  {
    FindAbsent(line, '\n');
    LinesRoundTrip([line]);
    assert Terminated([line]) == line + ['\n'] by {
      assert [line][1..] == [];
    }
    OneLineFits(line, true);
    OneLineFits(line, false);
  }

  lemma OneLineFits(line: string, unterminated: bool)
    ensures LinesFit([line], unterminated) <==> |line| <= if unterminated then 65536 else 65535
  {
    assert Fits([line], unterminated, 0) <==> |line| <= if unterminated then 65536 else 65535;
  }

  // ---- What the chroot helper looks for ----

  ghost predicate OccursAt(s: string, t: string, i: nat)
  {
    i + |t| <= |s| && s[i..i + |t|] == t
  }

  ghost predicate Contains(s: string, t: string)
  {
    exists i :: OccursAt(s, t, i)
  }

  lemma ContainsMiddle(a: string, t: string, b: string)
    ensures Contains(a + t + b, t)
  {
    assert OccursAt(a + t + b, t, |a|);
  }

  function Needle(user: UnixUser): string
  {
    Between(Print(user.uid), Print(user.gid))
  }

  function Between(uid: string, gid: string): string
  {
    ":x:" + uid + ":" + gid + ":"
  }

  lemma JoinCons(first: string, rest: seq<string>)
    requires rest != []
    ensures JoinFields([first] + rest) == first + [':'] + JoinFields(rest)
  {
    assert ([first] + rest)[1..] == rest;
  }

  lemma LineHasNeedle(name: string, uid: string, gid: string, rest: seq<string>)
    requires rest != []
    ensures JoinFields([name, "x", uid, gid] + rest) == name + Between(uid, gid) + JoinFields(rest)
  {
    JoinCons(gid, rest);
    JoinCons(uid, [gid] + rest);
    JoinCons("x", [uid] + ([gid] + rest));
    JoinCons(name, ["x"] + ([uid] + ([gid] + rest)));
    assert [name, "x", uid, gid] + rest == [name] + (["x"] + ([uid] + ([gid] + rest)));
  }

  lemma LastLineOccurs(lines: seq<string>, before: string, t: string, after: string)
    ensures Contains(Terminated(lines + [before + t + after]), t)
  {
    TerminatedSnoc(lines, before + t + after);
    var start := Terminated(lines);
    assert start + (before + t + after) + ['\n'] == (start + before) + t + (after + ['\n']);
    ContainsMiddle(start + before, t, after + ['\n']);
  }

  /** Whatever the image's /etc/passwd was, the rewritten one has the text that
      the helper checks for. */
  lemma PasswdNamesTheBuildUser(data: string, user: UnixUser)
    ensures Contains(Rewritten(data, user.uid, user.name, PasswdLine(user)), Needle(user))
  {
    var o := Picked(Tokens(data), user.uid, Default(user.name));
    var (uid, gid, rest) := (Print(user.uid), Print(user.gid), ["", "/tmp", o.shell]);
    LineHasNeedle(o.name, uid, gid, rest);
    assert [o.name, "x", uid, gid] + rest == [o.name, "x", uid, gid, "", "/tmp", o.shell];
    LastLineOccurs(Kept(Tokens(data), user.uid), o.name, Needle(user), JoinFields(rest));
  }
}
