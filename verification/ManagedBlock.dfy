/**
 Installing into and removing from a TOML configuration: one block between two marker lines, and a
 backup of the file as it was before the first change.
 */
module ManagedBlock {
  import opened Wrappers

  const BEGIN := "# OAF managed begin open-agent-fabric"
  const END := "# OAF managed end open-agent-fabric"
  const HEAD := "\n[mcp_servers.open-agent-fabric]\ncommand = \""
  const ARGS := "\"\nargs = [\"mcp\", \"server\", \"--stdio\"]\n"

  // ---------------------------------------------------------------- text

  predicate At(s: string, part: string, i: nat) {
    i + |part| <= |s| && s[i..i + |part|] == part
  }

  predicate Contains(s: string, part: string) {
    exists i :: 0 <= i <= |s| && At(s, part, i)
  }

  /** `str::find`: the first occurrence. */
  function Find(s: string, part: string): (r: Option<nat>)
    ensures r.Some? ==> At(s, part, r.value) && forall j: nat :: j < r.value ==> !At(s, part, j)
    ensures r.None? ==> forall j: nat :: !At(s, part, j)
  {
    if |part| <= |s| && s[..|part|] == part then Some(0)
    else if s == "" then None
    else
      var rest := Find(s[1..], part);
      AtShifts(s, part);
      if rest.Some? then Some(rest.value + 1) else None
  }

  lemma {:induction false} AtShifts(s: string, part: string)
    requires s != ""
    ensures forall j: nat :: j > 0 ==> (At(s, part, j) <==> At(s[1..], part, j - 1))
  {
    forall j: nat | j > 0 ensures At(s, part, j) <==> At(s[1..], part, j - 1) {
      if j + |part| <= |s| {
        var a, b := s[j..j + |part|], s[1..][j - 1..j - 1 + |part|];
        assert forall k :: 0 <= k < |part| ==> a[k] == s[j + k] && b[k] == s[j + k];
        assert a == b;
      }
    }
  }

  lemma {:induction false} FindIs(s: string, part: string, i: nat)
    requires At(s, part, i) && forall j: nat :: j < i ==> !At(s, part, j)
    ensures Find(s, part) == Some(i)
  {
  }

  lemma {:induction false} AtContains(s: string, part: string, i: nat)
    requires At(s, part, i)
    ensures Contains(s, part)
  {
  }

  /** Occurrences inside a prefix are those of the prefix. */
  lemma {:induction false} AtInFront(front: string, back: string, part: string, j: nat)
    requires j + |part| <= |front|
    ensures At(front + back, part, j) <==> At(front, part, j)
  {
    assert (front + back)[j..j + |part|] == front[j..j + |part|];
  }

  /** Occurrences inside a suffix are those of the suffix, shifted. */
  lemma {:induction false} AtInBack(s: string, from: nat, part: string, j: nat)
    requires from <= j && from <= |s|
    ensures At(s, part, j) <==> At(s[from..], part, j - from)
  {
    if j + |part| <= |s| {
      var a, b := s[j..j + |part|], s[from..][j - from..j - from + |part|];
      assert forall k :: 0 <= k < |part| ==> a[k] == s[j + k] && b[k] == s[j + k];
      assert a == b;
    }
  }

  lemma {:induction false} AtChar(s: string, part: string, i: nat, k: nat)
    requires At(s, part, i) && k < |part|
    ensures s[i + k] == part[k]
  {
    assert s[i..i + |part|][k] == s[i + k];
  }

  /** The length without trailing white space. */
  function TrimmedLength(space: char -> bool, s: string): (n: nat)
    ensures n <= |s| && (n > 0 ==> !space(s[n - 1])) && forall i :: n <= i < |s| ==> space(s[i])
  {
    if s == "" || !space(s[|s| - 1]) then |s| else TrimmedLength(space, s[..|s| - 1])
  }

  function TrimEnd(space: char -> bool, s: string): string {
    s[..TrimmedLength(space, s)]
  }

  predicate IsBlank(space: char -> bool, s: string) {
    TrimmedLength(space, s) == 0
  }

  /** `toml_quote`, both replacements at once. */
  function QuoteChar(c: char): string {
    if c == '\\' then "\\\\" else if c == '\"' then "\\\"" else [c]
  }

  function Quote(s: string): string {
    if s == "" then "" else QuoteChar(s[0]) + Quote(s[1..])
  }

  // ---------------------------------------------------------------- the block

  function Block(command: string): string {
    BEGIN + (HEAD + (Quote(command) + (ARGS + (END + "\n"))))
  }

  /** The end of the line in which the closing marker at `end` stands. */
  function LineEnd(b: string, end: nat): (n: nat)
    requires end <= |b|
    ensures end <= n <= |b|
  {
    var line := Find(b[end..], "\n");
    if line.Some? then end + line.value + 1 else |b|
  }

  /** The text without its first block, through the end of the line that closes it. */
  function RemoveBlock(text: string): Option<string> {
    var start :- Find(text, BEGIN);
    var b := text[start..];
    var end :- Find(b, END);
    Some(text[..start] + b[LineEnd(b, end)..])
  }

  function ReplaceOrAppend(space: char -> bool, text: string, desired: string): string {
    var removed := RemoveBlock(text);
    if removed.Some? then removed.value + desired
    else TrimEnd(space, text) + ((if IsBlank(space, text) then "" else "\n\n") + desired)
  }

  // ---------------------------------------------------------------- the two files

  datatype Disk = Disk(file: Option<string>, backup: Option<string>)

  datatype Action = AlreadyInstalled | Installed | RestoredBackup | NotInstalled | RemovedFile | RemovedEntry

  /** A backup is made of an existing file, and never overwritten. */
  function BackUp(d: Disk): Disk {
    if d.file.Some? && d.backup.None? then d.(backup := d.file) else d
  }

  function Install(space: char -> bool, d: Disk, command: string): (Disk, Action) {
    var desired := Block(command);
    if d.file.Some? && Contains(d.file.value, desired) then (d, AlreadyInstalled)
    else
      var next := if d.file.Some? then ReplaceOrAppend(space, d.file.value, desired) else desired;
      (BackUp(d).(file := Some(next)), Installed)
  }

  function Uninstall(space: char -> bool, d: Disk): (Disk, Action) {
    if d.backup.Some? then (Disk(d.backup, None), RestoredBackup)
    else if d.file.None? then (d, NotInstalled)
    else
      var next := RemoveBlock(d.file.value);
      if next.None? then (d, NotInstalled)
      else if IsBlank(space, next.value) then (d.(file := None), RemovedFile)
      else (BackUp(d).(file := next), RemovedEntry)
  }

  class ConfigFile {
    var file: Option<string>
    var backup: Option<string>

    ghost function State(): Disk
      reads this
    {
      Disk(file, backup)
    }

    method BackupExisting()
      modifies this
      ensures State() == BackUp(old(State()))
    {
      if file.Some? && backup.None? {
        backup := file;
      }
    }

    method RestoreBackup()
      requires backup.Some?
      modifies this
      ensures State() == Disk(old(backup), None)
    {
      file := backup;
      backup := None;
    }

    method ApplyTomlInstall(space: char -> bool, command: string, uninstall: bool) returns (action: Action)
      modifies this
      ensures (State(), action) == if uninstall then Uninstall(space, old(State())) else Install(space, old(State()), command)
    {
      hide RemoveBlock, ReplaceOrAppend, Contains, Block;
      var text := file;
      if uninstall {
        if backup.Some? {
          RestoreBackup();
          return RestoredBackup;
        }
        if text.None? {
          return NotInstalled;
        }
        var next := RemoveBlock(text.value);
        if next.None? {
          return NotInstalled;
        }
        if IsBlank(space, next.value) {
          file := None;
          return RemovedFile;
        }
        BackupExisting();
        file := next;
        return RemovedEntry;
      }
      var desired := Block(command);
      if text.Some? && Contains(text.value, desired) {
        return AlreadyInstalled;
      }
      var next := if text.Some? then ReplaceOrAppend(space, text.value, desired) else desired;
      BackupExisting();
      file := Some(next);
      return Installed;
    }
  }

  // ---------------------------------------------------------------- quoting

  function Unquote(s: string): string {
    if s == "" then ""
    else if s[0] == '\\' && |s| >= 2 then [s[1]] + Unquote(s[2..])
    else [s[0]] + Unquote(s[1..])
  }

  /** Quoting loses nothing. */
  lemma {:induction false} UnquoteQuoted(s: string)
    ensures Unquote(Quote(s)) == s
  {
    if s != "" {
      UnquoteQuoted(s[1..]);
      var q := QuoteChar(s[0]);
      assert (q + Quote(s[1..]))[|q|..] == Quote(s[1..]);
      assert s == [s[0]] + s[1..];
    }
  }

  lemma {:induction false} BlockInjective(a: string, b: string)
    requires Block(a) == Block(b)
    ensures a == b
  {
    var x, y, tail := Quote(a), Quote(b), ARGS + (END + "\n");
    DropFront(BEGIN, HEAD + (x + tail), HEAD + (y + tail));
    DropFront(HEAD, x + tail, y + tail);
    assert |x| == |y|;
    assert x == (x + tail)[..|x|] && y == (y + tail)[..|y|];
    UnquoteQuoted(a);
    UnquoteQuoted(b);
  }

  lemma {:induction false} DropFront(p: string, a: string, b: string)
    requires p + a == p + b
    ensures a == b
  {
    assert a == (p + a)[|p|..] && b == (p + b)[|p|..];
  }

  function ReplaceChar(s: string, c: char, with: string): string {
    if s == "" then "" else (if s[0] == c then with else [s[0]]) + ReplaceChar(s[1..], c, with)
  }

  lemma {:induction false} ReplaceCharFront(front: char, s: string, c: char, with: string)
    ensures ReplaceChar([front] + s, c, with) == (if front == c then with else [front]) + ReplaceChar(s, c, with)
  {
    assert ([front] + s)[1..] == s;
  }

  lemma {:induction false} Regroup(a: string, b: string, c: string)
    ensures a + (b + c) == a + b + c
  {
  }

  lemma {:induction false} ReplaceCharAppend(a: string, b: string, c: char, with: string)
    ensures ReplaceChar(a + b, c, with) == ReplaceChar(a, c, with) + ReplaceChar(b, c, with)
  {
    if a == "" {
      assert a + b == b;
    } else {
      hide ReplaceChar;
      var front, rest := a[0], a[1..];
      ReplaceCharAppend(rest, b, c, with);
      Regroup([front], rest, b);
      assert [front] + rest == a;
      ReplaceCharFront(front, rest, c, with);
      ReplaceCharFront(front, rest + b, c, with);
      Regroup(if front == c then with else [front], ReplaceChar(rest, c, with), ReplaceChar(b, c, with));
    }
  }

  /** Escaping backslashes first and quotes second escapes each character once. */
  lemma {:induction false} QuoteIsTwoReplacements(s: string)
    ensures ReplaceChar(ReplaceChar(s, '\\', "\\\\"), '\"', "\\\"") == Quote(s)
  {
    if s != "" {
      QuoteIsTwoReplacements(s[1..]);
      var first := if s[0] == '\\' then "\\\\" else [s[0]];
      ReplaceCharAppend(first, ReplaceChar(s[1..], '\\', "\\\\"), '\"', "\\\"");
      ReplaceFirst(s[0]);
    }
  }

  lemma {:induction false} ReplaceFirst(c: char)
    ensures ReplaceChar(if c == '\\' then "\\\\" else [c], '\"', "\\\"") == QuoteChar(c)
  {
    if c == '\\' {
      assert "\\\\"[1..] == "\\" && "\\"[1..] == "";
      assert ReplaceChar("\\", '\"', "\\\"") == "\\";
    } else {
      assert [c][1..] == "";
    }
  }

  lemma {:induction false} QuotesAreEscaped(s: string, p: nat)
    requires p < |Quote(s)| && Quote(s)[p] == '\"'
    ensures p > 0 && Quote(s)[p - 1] == '\\'
  {
    var n := |QuoteChar(s[0])|;
    if p >= n {
      QuotesAreEscaped(s[1..], p - n);
      assert Quote(s)[p - 1] == Quote(s[1..])[p - 1 - n];
    }
  }

  // ---------------------------------------------------------------- where the markers are

  lemma {:induction false} Markers()
    ensures BEGIN[0] == '#' && END[0] == '#' && BEGIN[14] != END[14] && |BEGIN| == 37 && |END| == 35
    ensures forall i :: 0 < i < |BEGIN| ==> BEGIN[i] != '#'
    ensures forall i :: 0 <= i < |BEGIN| ==> BEGIN[i] != '\n'
    ensures forall i :: 0 < i < |END| ==> END[i] != '#'
    ensures forall i :: 0 <= i < |END| ==> END[i] != '\"' && END[i] != '\n'
  {
  }

  lemma {:induction false} Fillers()
    ensures forall i :: 0 <= i < |HEAD| ==> HEAD[i] != '#'
    ensures forall i :: 0 <= i < |ARGS| ==> ARGS[i] != '#'
    ensures |HEAD| > 2 && HEAD[|HEAD| - 1] == '\"' && HEAD[|HEAD| - 2] == ' '
    ensures |ARGS| > 2 && ARGS[0] == '\"' && ARGS[1] == '\n'
  {
  }

  /** Where the closing marker of a block stands. */
  function ClosingAt(command: string): nat {
    |BEGIN| + |HEAD| + |Quote(command)| + |ARGS|
  }

  lemma {:induction false} BlockShape(command: string)
    ensures var b, q := Block(command), Quote(command);
            var start := |BEGIN| + |HEAD|;
            && |b| == ClosingAt(command) + |END| + 1
            && (forall j :: 0 <= j < |BEGIN| ==> b[j] == BEGIN[j])
            && (forall j :: |BEGIN| <= j < start ==> b[j] == HEAD[j - |BEGIN|])
            && (forall j :: start <= j < start + |q| ==> b[j] == q[j - start])
            && (forall j :: start + |q| <= j < ClosingAt(command) ==> b[j] == ARGS[j - start - |q|])
            && (forall j :: ClosingAt(command) <= j < |b| - 1 ==> b[j] == END[j - ClosingAt(command)])
            && b[|b| - 1] == '\n'
  {
    hide BEGIN, END, HEAD, ARGS;
  }

  lemma {:induction false} BlockMarks(command: string)
    ensures At(Block(command), BEGIN, 0) && At(Block(command), END, ClosingAt(command))
  {
    hide BEGIN, END, HEAD, ARGS;
    BlockShape(command);
    var b := Block(command);
    assert b[0..|BEGIN|] == BEGIN;
    assert b[ClosingAt(command)..ClosingAt(command) + |END|] == END;
  }

  /** A closing marker before the last one sits inside the quoted command. */
  lemma {:induction false} EarlyClosing(command: string, j: nat)
    requires j < ClosingAt(command) && At(Block(command), END, j)
    ensures !Plain(command) && |BEGIN| + |HEAD| <= j < |BEGIN| + |HEAD| + |Quote(command)|
  {
    hide BEGIN, END, HEAD, ARGS, Block, Contains;
    Markers();
    Fillers();
    BlockShape(command);
    var b, q, start := Block(command), Quote(command), |BEGIN| + |HEAD|;
    AtChar(b, END, j, 0);
    AtChar(b, END, j, 14);
    assert start <= j < start + |q|;
    var p := j - start;
    assert p + |END| <= |q| by { InsideQuote(command, j); }
    assert b[j..j + |END|] == q[p..p + |END|];
    AtContains(q, END, p);
  }

  lemma {:induction false} InsideQuote(command: string, j: nat)
    requires |BEGIN| + |HEAD| <= j < |BEGIN| + |HEAD| + |Quote(command)| && At(Block(command), END, j)
    ensures j + |END| <= |BEGIN| + |HEAD| + |Quote(command)|
  {
    hide BEGIN, END, HEAD, ARGS, Block;
    Markers();
    Fillers();
    BlockShape(command);
    var b, close := Block(command), |BEGIN| + |HEAD| + |Quote(command)|;
    assert b[close] == ARGS[0];
    if j + |END| > close {
      AtChar(b, END, j, close - j);
    }
  }

  /** The command does not spell the closing marker. */
  predicate Plain(command: string) {
    !Contains(Quote(command), END)
  }

  /** Where the removal of a block's own text stops. */
  function Cut(b: string): (n: nat)
    ensures n <= |b|
  {
    var end := Find(b, END);
    if end.Some? then LineEnd(b, end.value) else |b|
  }

  lemma {:induction false} ContainedIsFound(s: string, part: string)
    requires Contains(s, part)
    ensures Find(s, part).Some?
  {
  }

  lemma {:induction false} RemoveAtMarker(front: string, b: string)
    requires At(b, BEGIN, 0) && Contains(b, END) && forall j: nat :: j < |front| ==> !At(front + b, BEGIN, j)
    ensures RemoveBlock(front + b) == Some(front + b[Cut(b)..])
  {
    hide BEGIN, END, Contains, LineEnd;
    var text := front + b;
    assert Find(text, BEGIN) == Some(|front|) by {
      assert text[|front|..] == b;
      AtInBack(text, |front|, BEGIN, |front|);
      FindIs(text, BEGIN, |front|);
    }
    ContainedIsFound(b, END);
    hide Find, At;
    assert text[|front|..] == b && text[..|front|] == front;
  }

  /** A plain block is cut off whole, any other too early. */
  lemma {:induction false} CutOfBlock(command: string)
    ensures Plain(command) ==> Cut(Block(command)) == |Block(command)|
    ensures !Plain(command) ==> Cut(Block(command)) <= ClosingAt(command)
  {
    hide BEGIN, END, HEAD, ARGS, Block, Contains, Find, Plain;
    var b := Block(command);
    BlockMarks(command);
    var end := Find(b, END).value;
    assert end <= ClosingAt(command);
    if end < ClosingAt(command) {
      EarlyClosing(command, end);
      EarlyLine(command, end);
    } else {
      ClosingLine(command);
      if !Plain(command) {
        LateClosing(command);
      }
    }
  }

  lemma {:induction false} LateClosing(command: string)
    requires Find(Block(command), END) == Some(ClosingAt(command))
    ensures Plain(command)
  {
    hide BEGIN, END, HEAD, ARGS, Block, Find;
    Fillers();
    BlockShape(command);
    var b, q, start := Block(command), Quote(command), |BEGIN| + |HEAD|;
    forall p | 0 <= p <= |q| ensures !At(q, END, p) {
      if p + |END| <= |q| {
        assert b[start + p..start + p + |END|] == q[p..p + |END|];
        assert !At(b, END, start + p);
      }
    }
  }

  /** After the closing marker the line, and the block, ends. */
  lemma {:induction false} ClosingLine(command: string)
    ensures Find(Block(command)[ClosingAt(command)..], "\n") == Some(|END|)
    ensures ClosingAt(command) + |END| + 1 == |Block(command)|
  {
    hide BEGIN, END, HEAD, ARGS, Block, Find;
    Markers();
    BlockShape(command);
    var tail := Block(command)[ClosingAt(command)..];
    assert tail[|END|..|END| + 1] == "\n";
    assert At(tail, "\n", |END|);
    forall j: nat | j < |END| ensures !At(tail, "\n", j) {
      if At(tail, "\n", j) {
        AtChar(tail, "\n", j, 0);
      }
    }
    FindIs(tail, "\n", |END|);
  }

  lemma {:induction false} EarlyLine(command: string, end: nat)
    requires |BEGIN| + |HEAD| <= end < |BEGIN| + |HEAD| + |Quote(command)|
    ensures end <= |Block(command)|
    ensures var line := Find(Block(command)[end..], "\n"); line.Some? && end + line.value + 1 <= ClosingAt(command)
  {
    hide BEGIN, END, HEAD, ARGS, Block, Find;
    Markers();
    Fillers();
    BlockShape(command);
    var b, k := Block(command), |BEGIN| + |HEAD| + |Quote(command)| + 1;
    assert b[k] == ARGS[1];
    assert b[end..][k - end..k - end + 1] == "\n";
    assert At(b[end..], "\n", k - end);
  }

  lemma {:induction false} LeftOver(space: char -> bool, command: string, from: nat)
    requires !space('#') && from <= ClosingAt(command)
    ensures from <= |Block(command)| && !IsBlank(space, Block(command)[from..])
  {
    hide BEGIN, END, HEAD, ARGS, Block;
    Markers();
    BlockShape(command);
    var rest := Block(command)[from..];
    assert rest[ClosingAt(command) - from] == '#';
  }

  /** A plain block is removed whole; any other leaves a piece of itself behind. */
  lemma {:induction false} RemoveOwnBlock(space: char -> bool, command: string)
    requires !space('#')
    ensures RemoveBlock(Block(command)).Some?
    ensures Plain(command) ==> RemoveBlock(Block(command)) == Some("")
    ensures !Plain(command) ==> !IsBlank(space, RemoveBlock(Block(command)).value)
  {
    hide BEGIN, END, HEAD, ARGS, Block, Contains, Find, Plain, RemoveBlock, Cut;
    var b := Block(command);
    BlockMarks(command);
    AtContains(b, END, ClosingAt(command));
    RemoveAtMarker("", b);
    assert "" + b == b && "" + b[Cut(b)..] == b[Cut(b)..];
    CutOfBlock(command);
    if !Plain(command) {
      LeftOver(space, command, Cut(b));
    }
  }

  /** Inside a plain block there is no other block. */
  lemma {:induction false} PlainBlockHoldsNoOther(a: string, b: string)
    requires Plain(a)
    ensures Contains(Block(a), Block(b)) <==> a == b
  {
    hide BEGIN, END, HEAD, ARGS, Block;
    if a == b {
      assert Block(a)[0..0 + |Block(b)|] == Block(b);
      assert At(Block(a), Block(b), 0);
    }
    if Contains(Block(a), Block(b)) {
      var i :| 0 <= i <= |Block(a)| && At(Block(a), Block(b), i);
      NestedAtEnd(a, b, i);
      NestedAtStart(a, b, i);
      assert Block(a)[0..0 + |Block(b)|] == Block(a);
      BlockInjective(a, b);
    }
  }

  lemma {:induction false} NestedAtEnd(a: string, b: string, i: nat)
    requires Plain(a) && At(Block(a), Block(b), i)
    ensures i + |Block(b)| == |Block(a)| && i + |Quote(b)| == |Quote(a)|
  {
    hide BEGIN, END, HEAD, ARGS, Block, Plain, Quote;
    var j := i + ClosingAt(b);
    assert At(Block(a), END, j) by {
      BlockMarks(b);
      Inner(Block(a), Block(b), END, i, ClosingAt(b));
    }
    assert j >= ClosingAt(a) by {
      if j < ClosingAt(a) {
        EarlyClosing(a, j);
      }
    }
    BlockSize(a);
    BlockSize(b);
  }

  lemma {:induction false} BlockSize(command: string)
    ensures |Block(command)| == ClosingAt(command) + |END| + 1
  {
    hide BEGIN, END, HEAD, ARGS, Quote;
  }

  lemma {:induction false} NestedQuote(a: string, b: string, i: nat)
    requires At(Block(a), Block(b), i) && i + |Quote(b)| == |Quote(a)| && i > 0
    ensures Quote(a)[i - 1] == '\"' && (i > 1 ==> Quote(a)[i - 2] == ' ')
  {
    hide BEGIN, END, HEAD, ARGS, Block;
    Markers();
    Fillers();
    BlockShape(a);
    BlockShape(b);
    var k := |BEGIN| + |HEAD| - 1;
    AtChar(Block(a), Block(b), i, k);
    AtChar(Block(a), Block(b), i, k - 1);
    assert Block(b)[k] == HEAD[|HEAD| - 1] && Block(b)[k - 1] == HEAD[|HEAD| - 2];
  }

  lemma {:induction false} NestedAtStart(a: string, b: string, i: nat)
    requires At(Block(a), Block(b), i) && i + |Quote(b)| == |Quote(a)|
    ensures i == 0
  {
    hide BEGIN, END, HEAD, ARGS, Block, Quote, At;
    if i > 0 {
      NestedQuote(a, b, i);
      QuotesAreEscaped(a, i - 1);
    }
  }

  // ---------------------------------------------------------------- runs of installs

  /** After an install the file holds the block, and installing again changes nothing. */
  lemma {:induction false} InstallIsStable(space: char -> bool, d: Disk, command: string)
    ensures var d' := Install(space, d, command).0;
            && d'.file.Some? && Contains(d'.file.value, Block(command))
            && Install(space, d', command) == (d', AlreadyInstalled)
  {
    hide Block, RemoveBlock, TrimmedLength;
    var desired := Block(command);
    if d.file.None? {
      SuffixIsContained("", desired);
      assert "" + desired == desired;
    } else {
      var removed := RemoveBlock(d.file.value);
      var front := if removed.Some? then removed.value else TrimEnd(space, d.file.value) + (if IsBlank(space, d.file.value) then "" else "\n\n");
      SuffixIsContained(front, desired);
      assert removed.None? ==> front + desired == ReplaceOrAppend(space, d.file.value, desired);
    }
  }

  lemma {:induction false} SuffixIsContained(front: string, part: string)
    ensures Contains(front + part, part)
  {
    assert (front + part)[|front|..|front| + |part|] == part;
    assert At(front + part, part, |front|);
  }

  function Run(space: char -> bool, d: Disk, commands: seq<string>): Disk
    decreases |commands|
  {
    if commands == [] then d else Run(space, Install(space, d, commands[0]).0, commands[1..])
  }

  lemma {:induction false} RunKeepsBackup(space: char -> bool, d: Disk, commands: seq<string>)
    requires d.backup.Some?
    ensures Run(space, d, commands).backup == d.backup
    decreases |commands|
  {
    hide Block, Contains, ReplaceOrAppend;
    if commands != [] {
      RunKeepsBackup(space, Install(space, d, commands[0]).0, commands[1..]);
    }
  }

  /** All the blocks are in the text already. */
  ghost predicate AllPresent(text: string, commands: seq<string>) {
    forall k :: 0 <= k < |commands| ==> Contains(text, Block(commands[k]))
  }

  /** The backup is the text before the first change, whatever is installed after it. */
  lemma {:induction false} RunFromText(space: char -> bool, text: string, commands: seq<string>)
    ensures AllPresent(text, commands) ==> Run(space, Disk(Some(text), None), commands) == Disk(Some(text), None)
    ensures !AllPresent(text, commands) ==> Run(space, Disk(Some(text), None), commands).backup == Some(text)
    decreases |commands|
  {
    hide Block, Contains, ReplaceOrAppend;
    if commands != [] {
      RunFromText(space, text, commands[1..]);
      var d := Install(space, Disk(Some(text), None), commands[0]).0;
      if Contains(text, Block(commands[0])) {
        assert AllPresent(text, commands[1..]) ==> AllPresent(text, commands) by {
          assert forall k :: 0 < k < |commands| ==> commands[k] == commands[1..][k - 1];
        }
        assert AllPresent(text, commands) ==> AllPresent(text, commands[1..]);
      } else {
        RunKeepsBackup(space, d, commands[1..]);
      }
    }
  }

  /** Where a block occurs, so do its markers. */
  lemma {:induction false} MarkersOccur(text: string, command: string, i: nat)
    requires At(text, Block(command), i)
    ensures At(text, BEGIN, i) && At(text, END, i + ClosingAt(command))
  {
    hide BEGIN, END, HEAD, ARGS, Block, ClosingAt;
    BlockMarks(command);
    Inner(text, Block(command), BEGIN, i, 0);
    Inner(text, Block(command), END, i, ClosingAt(command));
  }

  lemma {:induction false} Inner(text: string, middle: string, part: string, i: nat, j: nat)
    requires At(text, middle, i) && At(middle, part, j)
    ensures At(text, part, i + j)
  {
    var a, b := middle[j..j + |part|], text[i + j..i + j + |part|];
    forall k | 0 <= k < |part| ensures a[k] == b[k] {
      AtChar(text, middle, i, j + k);
    }
    assert a == b;
  }

  /** Removing a block that is present shortens the text. */
  lemma {:induction false} RemovePresent(text: string, command: string)
    requires Contains(text, Block(command))
    ensures RemoveBlock(text).Some? && |RemoveBlock(text).value| < |text|
  {
    hide BEGIN, END, HEAD, ARGS, Block, Find, RemoveBlock;
    var i :| 0 <= i <= |text| && At(text, Block(command), i);
    MarkersOccur(text, command, i);
    var start := Find(text, BEGIN).value;
    assert start <= i;
    var front, b := text[..start], text[start..];
    assert front + b == text;
    AtInBack(text, start, BEGIN, start);
    AtInBack(text, start, END, i + ClosingAt(command));
    AtContains(b, END, i + ClosingAt(command) - start);
    RemoveAtMarker(front, b);
    assert Cut(b) > 0 by { CutsSome(b); }
  }

  lemma {:induction false} CutsSome(b: string)
    requires Contains(b, END)
    ensures Cut(b) > 0
  {
    hide END;
    Markers();
  }

  /**
   Installing any commands and then uninstalling gives back the original file and leaves no backup:
   with a backup left over from before, if and only if that backup is the file; for an existing file
   if and only if some install changed it; for a missing file if and only if every install was of
   the same command and that command does not spell the closing marker.
   */
  lemma {:induction false} UninstallRestores(space: char -> bool, d: Disk, commands: seq<string>)
    requires !space('#') && commands != []
    ensures var left := Uninstall(space, Run(space, d, commands)).0;
            left == Disk(d.file, None) <==>
            if d.backup.Some? then d.backup == d.file
            else if d.file.Some? then !AllPresent(d.file.value, commands)
            else Plain(commands[0]) && forall k :: 0 <= k < |commands| ==> commands[k] == commands[0]
  {
    hide Block, Contains, ReplaceOrAppend, RemoveBlock, Plain, Run, AllPresent;
    if d.backup.Some? {
      RunKeepsBackup(space, d, commands);
    } else if d.file.Some? {
      RunFromText(space, d.file.value, commands);
      if AllPresent(d.file.value, commands) {
        assert Contains(d.file.value, Block(commands[0])) by { FirstPresent(d.file.value, commands); }
        RemovePresent(d.file.value, commands[0]);
      }
    } else {
      var first, rest := commands[0], commands[1..];
      assert Run(space, Disk(None, None), commands) == Run(space, Disk(Some(Block(first)), None), rest) by { RunFirst(space, commands); }
      RunFromText(space, Block(first), rest);
      RemoveOwnBlock(space, first);
      assert forall k :: 0 < k < |commands| ==> commands[k] == rest[k - 1];
      if Plain(first) {
        PresentMeansSame(first, rest);
      }
    }
  }

  lemma {:induction false} FirstPresent(text: string, commands: seq<string>)
    requires AllPresent(text, commands) && commands != []
    ensures Contains(text, Block(commands[0]))
  {
    hide Block, Contains;
  }

  lemma {:induction false} RunFirst(space: char -> bool, commands: seq<string>)
    requires commands != []
    ensures Run(space, Disk(None, None), commands) == Run(space, Disk(Some(Block(commands[0])), None), commands[1..])
  {
    hide Block, Contains, ReplaceOrAppend;
  }

  lemma {:induction false} PresentMeansSame(first: string, rest: seq<string>)
    requires Plain(first)
    ensures AllPresent(Block(first), rest) <==> forall k :: 0 <= k < |rest| ==> rest[k] == first
  {
    hide Block, Contains, Plain;
    forall k | 0 <= k < |rest| ensures Contains(Block(first), Block(rest[k])) <==> rest[k] == first {
      PlainBlockHoldsNoOther(first, rest[k]);
    }
  }

  /** No file, two different commands, one uninstall: the first block stays. */
  lemma {:induction false} ReinstallLeavesFirstBlock(space: char -> bool, a: string, b: string)
    requires !space('#') && Plain(a) && a != b
    ensures Uninstall(space, Run(space, Disk(None, None), [a, b])).0 == Disk(Some(Block(a)), None)
  {
    hide Block, Contains, ReplaceOrAppend, RemoveBlock, Plain, Run;
    RunFirst(space, [a, b]);
    assert [a, b][1..] == [b];
    PlainBlockHoldsNoOther(a, b);
    assert !Contains(Block(a), Block([b][0]));
    RunFromText(space, Block(a), [b]);
  }

  // ---------------------------------------------------------------- runs that mix installs and uninstalls

  datatype Command = InstallIt(command: string) | UninstallIt

  function Do(space: char -> bool, d: Disk, c: Command): Disk {
    match c
    case InstallIt(command) => Install(space, d, command).0
    case UninstallIt => Uninstall(space, d).0
  }

  function Mixed(space: char -> bool, d: Disk, cs: seq<Command>): Disk {
    if cs == [] then d else Do(space, Mixed(space, d, cs[..|cs| - 1]), cs[|cs| - 1])
  }

  /** The last state of a run that had no backup. */
  function LastUnbacked(space: char -> bool, d: Disk, cs: seq<Command>): Option<Disk> {
    if Mixed(space, d, cs).backup.None? then Some(Mixed(space, d, cs))
    else if cs == [] then None
    else LastUnbacked(space, d, cs[..|cs| - 1])
  }

  /** One command makes a backup of the file before it, keeps the one there is, or uses it up. */
  lemma {:induction false} BackupAfter(space: char -> bool, d: Disk, c: Command)
    ensures var after := Do(space, d, c);
            after.backup.Some? ==> after.backup == if d.backup.Some? then d.backup else d.file
  {
    hide Block, Contains, ReplaceOrAppend, RemoveBlock, IsBlank;
  }

  /**
   In any run of installs and uninstalls, an uninstall that finds a backup goes back to the last state
   that had none, undoing everything since, be it an install or the removal of a block.
   */
  lemma {:induction false} UninstallUndoes(space: char -> bool, d: Disk, cs: seq<Command>)
    requires Mixed(space, d, cs).backup.Some?
    ensures var last := LastUnbacked(space, d, cs);
            Uninstall(space, Mixed(space, d, cs)) == (if last.Some? then last.value else Disk(d.backup, None), RestoredBackup)
  {
    hide Do, RemoveBlock, IsBlank;
    if cs != [] {
      var before := Mixed(space, d, cs[..|cs| - 1]);
      BackupAfter(space, before, cs[|cs| - 1]);
      if before.backup.Some? {
        UninstallUndoes(space, d, cs[..|cs| - 1]);
      }
    }
  }

  lemma {:induction false} RemoveShortens(text: string)
    requires RemoveBlock(text).Some?
    ensures |RemoveBlock(text).value| < |text|
  {
    hide BEGIN, END, Find;
    Markers();
    var start := Find(text, BEGIN).value;
    var b := text[start..];
    var end := Find(b, END).value;
    assert At(b, END, end);
    assert LineEnd(b, end) > 0;
  }

  /** Nothing is left for a second uninstall to change. */
  predicate SettlesAtOnce(space: char -> bool, d: Disk) {
    if d.backup.Some? then RemoveBlock(d.backup.value).None?
    else d.file.None? || RemoveBlock(d.file.value).None? || IsBlank(space, RemoveBlock(d.file.value).value)
  }

  /** A second uninstall changes nothing if and only if the text the first one leaves holds no block and no backup is left. */
  lemma {:induction false} SecondUninstallIff(space: char -> bool, d: Disk)
    ensures var once := Uninstall(space, d).0;
            Uninstall(space, once).0 == once <==> SettlesAtOnce(space, d)
  {
    hide RemoveBlock, IsBlank;
    if d.backup.Some? && RemoveBlock(d.backup.value).Some? {
      RemoveShortens(d.backup.value);
    }
  }

  /** Removing a block from a file that had no backup leaves one, so the next uninstall puts the block back. */
  lemma {:induction false} SecondUninstallRestores(space: char -> bool, text: string)
    requires RemoveBlock(text).Some? && !IsBlank(space, RemoveBlock(text).value)
    ensures Uninstall(space, Disk(Some(text), None)) == (Disk(RemoveBlock(text), Some(text)), RemovedEntry)
    ensures Uninstall(space, Uninstall(space, Disk(Some(text), None)).0) == (Disk(Some(text), None), RestoredBackup)
  {
    hide RemoveBlock, IsBlank;
  }

  /** What the reported action says about the files. */
  lemma {:induction false} ActionsTell(space: char -> bool, d: Disk, command: string)
    ensures var (d', action) := Install(space, d, command);
            && (action == AlreadyInstalled <==> d' == d) && (action == Installed <==> d' != d)
    ensures var (d', action) := Uninstall(space, d);
            && (action == NotInstalled <==> d' == d)
            && (action == RestoredBackup <==> d.backup.Some?)
            && (action == RemovedFile <==> d.backup.None? && d.file.Some? && d'.file.None?)
            && (action == RemovedEntry <==> d.backup.None? && d'.backup.Some?)
  {
    hide RemoveBlock, Contains, Block, TrimmedLength;
    if d.file.Some? && !Contains(d.file.value, Block(command)) {
      NewTextHoldsBlock(space, d.file.value, Block(command));
    }
  }

  lemma {:induction false} NewTextHoldsBlock(space: char -> bool, text: string, desired: string)
    ensures Contains(ReplaceOrAppend(space, text, desired), desired)
  {
    hide RemoveBlock, Contains;
    var removed := RemoveBlock(text);
    if removed.Some? {
      SuffixIsContained(removed.value, desired);
    } else {
      var front := TrimEnd(space, text) + if IsBlank(space, text) then "" else "\n\n";
      assert ReplaceOrAppend(space, text, desired) == front + desired;
      SuffixIsContained(front, desired);
    }
  }

  // ---------------------------------------------------------------- text outside the block

  /** What stands before an appended block is what removing it leaves. */
  lemma {:induction false} RemoveAppended(front: string, command: string)
    requires Plain(command) && !Contains(front, BEGIN)
    ensures RemoveBlock(front + Block(command)) == Some(front)
  {
    hide BEGIN, END, HEAD, ARGS, Block, Find, Contains, Plain, RemoveBlock, Cut;
    var b := Block(command);
    RemoveInside(front, command, "");
    CutOfBlock(command);
    assert b + "" == b && b[|b|..] + "" == "" && front + "" == front;
  }

  lemma {:induction false} NoEarlierMarker(front: string, back: string, j: nat)
    requires j < |front| && !Contains(front, BEGIN) && back != "" && back[0] == '#'
    ensures !At(front + back, BEGIN, j)
  {
    hide BEGIN;
    Markers();
    if j + |BEGIN| <= |front| {
      AtInFront(front, back, BEGIN, j);
    } else if At(front + back, BEGIN, j) {
      AtChar(front + back, BEGIN, j, |front| - j);
    }
  }

  lemma {:induction false} FindInFront(s: string, back: string, part: string)
    requires Find(s, part).Some?
    ensures Find(s + back, part) == Find(s, part)
  {
    hide Find;
    var i := Find(s, part).value;
    forall j: nat | j <= i ensures At(s + back, part, j) <==> At(s, part, j) {
      AtInFront(s, back, part, j);
    }
    FindIs(s + back, part, i);
  }

  /** What follows a block does not move the place where its removal stops. */
  lemma {:induction false} CutIgnoresBack(command: string, back: string)
    ensures Cut(Block(command) + back) == Cut(Block(command))
  {
    hide BEGIN, END, HEAD, ARGS, Block, Find;
    var b := Block(command);
    BlockMarks(command);
    BlockShape(command);
    FindInFront(b, back, END);
    var end := Find(b, END).value;
    assert end <= ClosingAt(command);
    var rest := b[end..];
    assert rest[|rest| - 1..|rest| - 1 + 1] == "\n";
    assert At(rest, "\n", |rest| - 1);
    FindInFront(rest, back, "\n");
    assert (b + back)[end..] == rest + back;
  }

  /** Removing a block keeps what stands before it and behind it. */
  lemma {:induction false} RemoveInside(front: string, command: string, back: string)
    requires !Contains(front, BEGIN)
    ensures var b := Block(command);
            RemoveBlock(front + (b + back)) == Some(front + (b[Cut(b)..] + back))
  {
    hide BEGIN, END, HEAD, ARGS, Block, Find, Contains, RemoveBlock, Cut;
    var b := Block(command);
    var rest := b + back;
    BlockMarks(command);
    Markers();
    AtInFront(b, back, BEGIN, 0);
    AtInFront(b, back, END, ClosingAt(command));
    AtContains(rest, END, ClosingAt(command));
    AtChar(b, BEGIN, 0, 0);
    forall j: nat | j < |front| ensures !At(front + rest, BEGIN, j) {
      NoEarlierMarker(front, rest, j);
    }
    RemoveAtMarker(front, rest);
    CutIgnoresBack(command, back);
    assert rest[Cut(b)..] == b[Cut(b)..] + back;
  }

  /**
   Installing over a file that holds an older block puts the new block at the end and keeps the text
   on both sides; the old block goes whole if and only if its command is plain.
   */
  lemma {:induction false} ReplaceKeepsText(space: char -> bool, front: string, older: string, back: string, backup: Option<string>, command: string)
    requires !Contains(front, BEGIN) && !Contains(front + (Block(older) + back), Block(command))
    ensures var (d, action) := Install(space, Disk(Some(front + (Block(older) + back)), backup), command);
            && action == Installed && d.file.Some?
            && (Plain(older) <==> d.file == Some(front + back + Block(command)))
            && (exists piece: string :: d.file == Some(front + (piece + back) + Block(command)))
  {
    hide BEGIN, END, HEAD, ARGS, Block, Find, Contains, RemoveBlock, Cut, Plain;
    var b, desired := Block(older), Block(command);
    RemoveInside(front, older, back);
    CutOfBlock(older);
    BlockSize(older);
    var piece := b[Cut(b)..];
    var text := front + (piece + back) + desired;
    assert ReplaceOrAppend(space, front + (b + back), desired) == text;
    if Plain(older) {
      assert piece + back == back;
    } else {
      assert |text| > |front + back + desired|;
    }
  }

  /** Installing keeps all user text but trailing white space. */
  lemma {:induction false} AppendKeepsText(space: char -> bool, text: string, command: string)
    requires Plain(command) && !Contains(text, BEGIN)
    ensures RemoveBlock(ReplaceOrAppend(space, text, Block(command))) ==
            Some(if IsBlank(space, text) then "" else TrimEnd(space, text) + "\n\n")
  {
    hide BEGIN, END, Block, Contains, Plain, RemoveBlock, TrimmedLength;
    var front := if IsBlank(space, text) then "" else TrimEnd(space, text) + "\n\n";
    assert RemoveBlock(text).None? by { NoBlock(text); }
    assert ReplaceOrAppend(space, text, Block(command)) == front + Block(command);
    assert !Contains(front, BEGIN) by { NoMarkerInTrimmed(space, text); NoMarkerInNothing(); }
    RemoveAppended(front, command);
  }

  lemma {:induction false} NoBlock(text: string)
    requires !Contains(text, BEGIN)
    ensures RemoveBlock(text).None?
  {
    hide BEGIN, END;
  }

  lemma {:induction false} NoMarkerInNothing()
    ensures !Contains("", BEGIN)
  {
  }

  lemma {:induction false} NoMarkerInTrimmed(space: char -> bool, text: string)
    requires !Contains(text, BEGIN)
    ensures !Contains(TrimEnd(space, text) + "\n\n", BEGIN)
  {
    hide BEGIN, TrimmedLength;
    Markers();
    var trimmed := TrimEnd(space, text);
    var front, back := trimmed + "\n\n", text[|trimmed|..];
    assert trimmed + back == text;
    forall j | 0 <= j <= |front| ensures !At(front, BEGIN, j) {
      if j + |BEGIN| <= |trimmed| {
        AtInFront(trimmed, "\n\n", BEGIN, j);
        AtInFront(trimmed, back, BEGIN, j);
      } else if At(front, BEGIN, j) {
        AtChar(front, BEGIN, j, if j <= |trimmed| then |trimmed| - j else 0);
      }
    }
  }
}
