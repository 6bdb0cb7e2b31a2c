/** The command dispatcher of the QbitTime command line: one input line is
    stripped, split on whitespace, its first word lower-cased, and the
    command it names is answered with the lines it prints and whether the
    session ends. Nothing is kept between two calls. */
module QbitTimeCli {

  // ---------------------------------------------------------------------
  // Text primitives: whitespace, lower-casing, stripping, splitting, joining
  // ---------------------------------------------------------------------

  /** The ASCII characters that Python's argument-less str.split() and
      str.strip() treat as whitespace. */
  predicate IsSpace(c: char) {
    c == ' ' || c == '\t' || c == '\n' || c == '\r' || c == '\U{B}' || c == '\U{C}'
    || ('\U{1C}' <= c <= '\U{1F}')
  }

  predicate AllSpace(s: string) {
    forall i :: 0 <= i < |s| ==> IsSpace(s[i])
  }

  predicate NoSpace(s: string) {
    forall i :: 0 <= i < |s| ==> !IsSpace(s[i])
  }

  /** A word as split() produces it: non-empty, without whitespace. */
  predicate IsWord(w: string) {
    w != [] && NoSpace(w)
  }

  function LowerChar(c: char): char {
    if 'A' <= c <= 'Z' then (c as int + 32) as char else c
  }

  /** str.lower() on ASCII letters. */
  function Lower(s: string): (r: string)
    ensures |r| == |s|
    ensures forall i :: 0 <= i < |s| ==> r[i] == LowerChar(s[i])
  {
    if s == [] then [] else [LowerChar(s[0])] + Lower(s[1..])
  }

  /** The leading whitespace removed (DropSpacesSuffix states that the
      result is the input from its first non-whitespace character on). */
  function DropSpaces(s: string): (t: string)
    ensures |t| <= |s|
    ensures t != [] ==> !IsSpace(t[0])
    ensures t == [] <==> AllSpace(s)
  {
    if s != [] && IsSpace(s[0]) then DropSpaces(s[1..]) else s
  }

  /** The trailing whitespace removed (TrimRightPrefix states that the result
      is a prefix of the input). */
  function TrimRight(s: string): (t: string)
    ensures |t| <= |s|
    ensures t != [] ==> !IsSpace(t[|t| - 1])
    ensures AllSpace(s[|t|..])
  {
    if s != [] && IsSpace(s[|s| - 1]) then TrimRight(s[..|s| - 1]) else s
  }

  /** str.strip() with no argument (StripSlice states that the result is a
      slice of the input with only whitespace around it). */
  function Strip(s: string): (r: string)
    ensures r == [] <==> AllSpace(s)
    ensures r != [] ==> !IsSpace(r[0]) && !IsSpace(r[|r| - 1])
  {
    var t := DropSpaces(s);
    var u := TrimRight(t);
    TrimRightPrefix(t);
    assert u != [] ==> u[0] == t[0];
    assert u == [] ==> t[|u|..] == t;
    u
  }

  /** The length of the longest whitespace-free prefix. */
  function WordLength(s: string): (n: nat)
    ensures n <= |s|
    ensures forall i :: 0 <= i < n ==> !IsSpace(s[i])
    ensures n < |s| ==> IsSpace(s[n])
  {
    if s != [] && !IsSpace(s[0]) then 1 + WordLength(s[1..]) else 0
  }

  /** str.split() with no argument: the maximal runs of non-whitespace. */
  function Split(s: string): (ws: seq<string>)
    ensures forall i :: 0 <= i < |ws| ==> IsWord(ws[i])
    decreases |s|
  {
    var t := DropSpaces(s);
    if t == [] then []
    else
      var n := WordLength(t);
      var w := t[..n];
      assert IsWord(w) by {
        assert w[0] == t[0];
      }
      [w] + Split(t[n..])
  }

  /** sep.join(parts): no parts give the empty string, and a single part is
      returned without a separator (SplitJoin states that single-space
      joining is undone by splitting). */
  function Join(parts: seq<string>, sep: string): (r: string)
    ensures |parts| == 1 ==> r == parts[0]
    ensures parts == [] ==> r == []
  {
    if parts == [] then ""
    else if |parts| == 1 then parts[0]
    else parts[0] + sep + Join(parts[1..], sep)
  }

  // ---------------------------------------------------------------------
  // Properties of the primitives
  // ---------------------------------------------------------------------

  lemma {:induction false} LowerIdempotent(s: string)
    ensures Lower(Lower(s)) == Lower(s)
  {
    if s != [] {
      LowerIdempotent(s[1..]);
    }
  }

  lemma {:induction false} SplitNoneIffBlank(s: string)
    ensures Split(s) == [] <==> AllSpace(s)
  {
  }

  lemma {:induction false} DropSpacesIdempotent(s: string)
    ensures DropSpaces(DropSpaces(s)) == DropSpaces(s)
  {
  }

  lemma {:induction false} SplitIgnoresLeadingSpace(s: string)
    ensures Split(DropSpaces(s)) == Split(s)
  {
    DropSpacesIdempotent(s);
  }

  /** Trailing whitespace never adds a word. */
  lemma SplitAppendSpace(s: string, c: char)
    requires IsSpace(c)
    ensures Split(s + [c]) == Split(s)
  {
    SplitSeparated(s, [c], []);
    assert s + [c] + [] == s + [c];
  }

  lemma {:induction false} SplitIgnoresTrailingSpace(s: string)
    ensures Split(TrimRight(s)) == Split(s)
    decreases |s|
  {
    if s != [] && IsSpace(s[|s| - 1]) {
      var p := s[..|s| - 1];
      assert s == p + [s[|s| - 1]];
      SplitAppendSpace(p, s[|s| - 1]);
      SplitIgnoresTrailingSpace(p);
    }
  }

  /** strip() before split() changes nothing: split() already drops the
      whitespace at both ends. */
  lemma SplitStrip(s: string)
    ensures Split(Strip(s)) == Split(s)
  {
    SplitIgnoresTrailingSpace(DropSpaces(s));
    SplitIgnoresLeadingSpace(s);
  }

  /** lstrip keeps a suffix of the input and removes only whitespace. */
  lemma {:induction false} DropSpacesSuffix(s: string)
    ensures var t := DropSpaces(s);
            t == s[|s| - |t|..] && AllSpace(s[..|s| - |t|])
    decreases |s|
  {
    if s != [] && IsSpace(s[0]) {
      DropSpacesSuffix(s[1..]);
      var t := DropSpaces(s[1..]);
      assert s[1..][|s| - 1 - |t|..] == s[|s| - |t|..];
      assert forall i :: 0 <= i < |s| - |t| ==> s[..|s| - |t|][i] == s[i];
      assert forall i :: 1 <= i < |s| - |t| ==> s[i] == s[1..][..|s| - 1 - |t|][i - 1];
    }
  }

  /** rstrip keeps a prefix of the input and removes only whitespace. */
  lemma {:induction false} TrimRightPrefix(s: string)
    ensures TrimRight(s) == s[..|TrimRight(s)|]
    decreases |s|
  {
    if s != [] && IsSpace(s[|s| - 1]) {
      TrimRightPrefix(s[..|s| - 1]);
      var t := TrimRight(s[..|s| - 1]);
      assert s[..|s| - 1][..|t|] == s[..|t|];
    }
  }

  /** strip() keeps a contiguous slice of the input, with only whitespace
      around it. */
  lemma StripSlice(s: string)
    ensures exists i, j :: 0 <= i <= j <= |s| && Strip(s) == s[i..j]
                           && AllSpace(s[..i]) && AllSpace(s[j..])
  {
    var t := DropSpaces(s);
    var i := |s| - |t|;
    DropSpacesSuffix(s);
    TrimRightPrefix(t);
    var u := TrimRight(t);
    var j := i + |u|;
    assert t == s[i..];
    assert u == t[..|u|] == s[i..j];
    assert s[j..] == t[|u|..];
    assert Strip(s) == s[i..j] && AllSpace(s[..i]) && AllSpace(s[j..]);
  }

  lemma {:induction false} WordLengthOfWord(w: string, u: string)
    requires NoSpace(w)
    requires u == [] || IsSpace(u[0])
    ensures WordLength(w + u) == |w|
    decreases |w|
  {
    if w != [] {
      assert (w + u)[1..] == w[1..] + u;
      WordLengthOfWord(w[1..], u);
    }
  }

  lemma SplitSpaceThen(s: string)
    ensures Split(" " + s) == Split(s)
  {
    assert (" " + s)[1..] == s;
  }

  /** Splitting words joined by single spaces gives the words back. */
  lemma {:induction false} SplitJoin(ws: seq<string>)
    requires forall i :: 0 <= i < |ws| ==> IsWord(ws[i])
    ensures Split(Join(ws, " ")) == ws
  {
    if |ws| == 1 {
      WordLengthOfWord(ws[0], []);
      assert ws[0] + [] == ws[0];
      assert ws[0][|ws[0]|..] == [];
    } else if |ws| > 1 {
      var rest := Join(ws[1..], " ");
      var s := ws[0] + " " + rest;
      assert s == ws[0] + (" " + rest);
      WordLengthOfWord(ws[0], " " + rest);
      assert s[..|ws[0]|] == ws[0];
      assert s[|ws[0]|..] == " " + rest;
      SplitSpaceThen(rest);
      SplitJoin(ws[1..]);
      assert ws == [ws[0]] + ws[1..];
    }
  }

  lemma {:induction false} DropSpacesBlankPrefix(p: string, q: string)
    requires AllSpace(p)
    ensures DropSpaces(p + q) == DropSpaces(q)
    decreases |p|
  {
    if p != [] {
      assert (p + q)[1..] == p[1..] + q;
      DropSpacesBlankPrefix(p[1..], q);
    } else {
      assert p + q == q;
    }
  }

  lemma {:induction false} DropSpacesWordPrefix(p: string, q: string)
    requires !AllSpace(p)
    ensures DropSpaces(p + q) == DropSpaces(p) + q
    decreases |p|
  {
    assert p != [];
    if IsSpace(p[0]) {
      assert (p + q)[1..] == p[1..] + q;
      DropSpacesWordPrefix(p[1..], q);
    }
  }

  lemma {:induction false} WordLengthInside(t: string, u: string)
    requires WordLength(t) < |t|
    ensures WordLength(t + u) == WordLength(t)
    decreases |t|
  {
    if !IsSpace(t[0]) {
      assert (t + u)[1..] == t[1..] + u;
      WordLengthInside(t[1..], u);
    }
  }

  /** Splitting looks at the input only after its leading whitespace. */
  lemma SplitSameDrop(x: string, y: string)
    requires DropSpaces(x) == DropSpaces(y)
    ensures Split(x) == Split(y)
  {
  }

  lemma SplitBlankPrefix(p: string, q: string)
    requires AllSpace(p)
    ensures Split(p + q) == Split(q)
  {
    DropSpacesBlankPrefix(p, q);
    SplitSameDrop(p + q, q);
  }

  lemma SplitDropsLead(a: string, q: string)
    requires !AllSpace(a)
    ensures Split(a + q) == Split(DropSpaces(a) + q)
  {
    var t := DropSpaces(a);
    DropSpacesWordPrefix(a, q);
    DropSpacesWordPrefix(t, q);
    DropSpacesIdempotent(a);
    SplitSameDrop(a + q, t + q);
  }

  /** A line that starts with a word splits into that word and the rest. */
  lemma SplitUnfold(x: string)
    requires x != [] && !IsSpace(x[0])
    ensures Split(x) == [x[..WordLength(x)]] + Split(x[WordLength(x)..])
  {
  }

  /** Any non-empty run of whitespace separates words the way a single space
      does: the tokens of the two sides are simply concatenated. */
  lemma {:induction false} SplitSeparated(a: string, w: string, b: string)
    requires w != [] && AllSpace(w)
    ensures Split(a + w + b) == Split(a) + Split(b)
    decreases |a|, 1
  {
    if AllSpace(a) {
      assert AllSpace(a + w);
      SplitBlankPrefix(a + w, b);
      SplitNoneIffBlank(a);
    } else {
      var t := DropSpaces(a);
      assert a + w + b == a + (w + b) && t + w + b == t + (w + b);
      assert a + [] == a && t + [] == t;
      SplitDropsLead(a, w + b);
      SplitDropsLead(a, []);
      SplitWordThenGap(t, w, b);
    }
  }

  /** SplitSeparated when the left side starts with a word. */
  lemma {:induction false} SplitWordThenGap(t: string, w: string, b: string)
    requires t != [] && !IsSpace(t[0])
    requires w != [] && AllSpace(w)
    ensures Split(t + w + b) == Split(t) + Split(b)
    decreases |t|, 0
  {
    var m := WordLength(t);
    if m < |t| {
      var q := w + b;
      var rest := t[m..];
      calc {
        Split(t + w + b);
      == { assert t + w + b == t + q; }
        Split(t + q);
      == { SplitUnfold(t + q); WordLengthInside(t, q); SliceOfAppend(t, q, m); }
        [t[..m]] + Split(rest + q);
      == { assert rest + q == rest + w + b; SplitSeparated(rest, w, b); }
        [t[..m]] + (Split(rest) + Split(b));
        ([t[..m]] + Split(rest)) + Split(b);
      == { SplitUnfold(t); }
        Split(t) + Split(b);
      }
    } else {
      SplitOneWordThenGap(t, w, b);
    }
  }

  lemma SliceOfAppend(t: string, q: string, m: nat)
    requires m <= |t|
    ensures (t + q)[..m] == t[..m] && (t + q)[m..] == t[m..] + q
  {
  }

  /** SplitSeparated when the left side is a single word. */
  lemma SplitOneWordThenGap(t: string, w: string, b: string)
    requires t != [] && NoSpace(t)
    requires w != [] && AllSpace(w)
    ensures Split(t + w + b) == [t] + Split(b)
    ensures Split(t) == [t]
  {
    var q := w + b;
    assert t + w + b == t + q;
    WordLengthOfWord(t, q);
    WordLengthOfWord(t, []);
    assert t + [] == t;
    SplitUnfold(t);
    SplitUnfold(t + q);
    assert (t + q)[..|t|] == t;
    assert (t + q)[|t|..] == q;
    assert t[..|t|] == t && t[|t|..] == [];
    SplitBlankPrefix(w, b);
  }

  // ---------------------------------------------------------------------
  // The command table and the replies
  // ---------------------------------------------------------------------

  /** COMMANDS_HELP, in its insertion order: usage pattern and description. */
  const CommandsHelp: seq<(string, string)> := [
    ("hello", "Prints a simple greeting."),
    ("greet <name>", "Greets the specified person."),
    ("add <num1> <num2>", "Adds two numbers together."),
    ("config <setting> [--value <val>] [--show]", "Configures or shows a setting (example, needs implementation)."),
    ("define_mnode <id> [data]", "Defines a Moment-Node (M-Node) with an ID and optional data. (QTM)"),
    ("link_mnodes <id1> <id2> <relationship>", "Links two M-Nodes with a temporal relationship (e.g., 'before', 'after_potential'). (QTM)"),
    ("help", "Shows this help message."),
    ("exit", "Exits the CLI.")
  ]

  /** The command words the dispatcher has a branch for. */
  const Handled: set<string> := {"help", "hello", "greet", "define_mnode", "link_mnodes", "exit"}

  /** What one call prints, one entry per print(), and whether the caller
      should leave its loop (the "exit_program" return value). */
  datatype Reply = Reply(lines: seq<string>, exit: bool)

  /** A left-aligned field of the given width, as the format spec {:<40}. */
  function PadRight(s: string, width: nat): (r: string)
    ensures |r| == if |s| < width then width else |s|
    ensures r[..|s|] == s
    ensures forall i :: |s| <= i < |r| ==> r[i] == ' '
  {
    if |s| < width then s + seq(width - |s|, _ => ' ') else s
  }

  /** A row of the help table: two spaces, the usage pattern left-aligned in
      a field of at least 40 columns, " - ", then the description. */
  predicate HelpRow(l: string, usage: string, description: string) {
    var c := if |usage| < 40 then 40 else |usage|;
    && |l| == c + 5 + |description|
    && l[..2] == "  " && l[2..2 + |usage|] == usage
    && (forall k :: 2 + |usage| <= k < 2 + c ==> l[k] == ' ')
    && l[2 + c..5 + c] == " - " && l[5 + c..] == description
  }

  lemma HelpRowLayout(usage: string, description: string)
    ensures HelpRow("  " + PadRight(usage, 40) + " - " + description, usage, description)
  {
    var p := PadRight(usage, 40);
    var l := "  " + p + " - " + description;
    var c := |p|;
    assert l[..2] == "  ";
    assert l[2..2 + c] == p;
    assert l[2..2 + |usage|] == p[..|usage|];
    assert forall k :: 2 + |usage| <= k < 2 + c ==> l[k] == p[k - 2];
    assert l[2 + c..5 + c] == " - ";
    assert l[5 + c..] == description;
  }

  /** The rows show_help prints for a table, one per entry, in its order. */
  function HelpRows(table: seq<(string, string)>): (rows: seq<string>)
    ensures |rows| == |table|
    ensures forall i :: 0 <= i < |table| ==> HelpRow(rows[i], table[i].0, table[i].1)
  {
    if table == [] then []
    else
      HelpRowLayout(table[0].0, table[0].1);
      ["  " + PadRight(table[0].0, 40) + " - " + table[0].1] + HelpRows(table[1..])
  }

  /** show_help over a help table: two heading lines, one row per entry,
      and two closing lines. The dispatcher passes COMMANDS_HELP. */
  function HelpLines(table: seq<(string, string)>): (r: seq<string>)
    ensures |r| == |table| + 4
    ensures r[0] == "\nAvailable commands:" && r[1] == "-------------------"
    ensures r[|r| - 2] == "\n(QTM) indicates a Quantum Time Math related command."
    ensures r[|r| - 1] == "Type a command followed by its arguments, if any.\n"
    ensures forall i :: 0 <= i < |table| ==> HelpRow(r[i + 2], table[i].0, table[i].1)
  {
    ["\nAvailable commands:", "-------------------"]
    + HelpRows(table)
    + ["\n(QTM) indicates a Quantum Time Math related command.",
       "Type a command followed by its arguments, if any.\n"]
  }

  const ExitLine := "Exiting QuantumTimeCLI. Goodbye!"
  const GreetUsage := "Usage: greet <name>"
  const DefineUsage := "Usage: define_mnode <id> [data]"
  const LinkUsage := "Usage: link_mnodes <id1> <id2> <relationship>"

  function UnknownLine(name: string): string {
    "Unknown command: '" + name + "'. Type 'help' for available commands."
  }

  function DefineLines(id: string, data: string): seq<string> {
    ["QuantumTimeCLI: Defined M-Node '" + id + "' with data: '" + data + "'",
     "  (Conceptual PAGE location: O?- :: D!-[" + id + "] (" + data + "))"]
  }

  function LinkLines(id1: string, id2: string, rel: string): seq<string> {
    ["QuantumTimeCLI: Linking M-Node '" + id1 + "' to '" + id2 + "' with relationship '" + rel + "'",
     "  (Conceptual T-Path: M-Node[" + id1 + "] --(" + rel + ")--> M-Node[" + id2 + "])"]
  }

  /** The branch chain on the lower-cased command word. */
  function Dispatch(name: string, args: seq<string>): (r: Reply)
    ensures r.exit <==> name == "exit"
    ensures r.lines != []
    ensures name !in Handled ==> r == Reply([UnknownLine(name)], false)
  {
    if name == "help" then Reply(HelpLines(CommandsHelp), false)
    else if name == "hello" then Reply(["Hello there, user!"], false)
    else if name == "greet" then
      if args != [] then Reply(["Greetings, " + Join(args, " ") + "!"], false)
      else Reply([GreetUsage], false)
    else if name == "define_mnode" then
      if |args| >= 1 then
        var data := if |args| > 1 then Join(args[1..], " ") else "No data";
        Reply(DefineLines(args[0], data), false)
      else Reply([DefineUsage], false)
    else if name == "link_mnodes" then
      if |args| == 3 then Reply(LinkLines(args[0], args[1], args[2]), false)
      else Reply([LinkUsage], false)
    else if name == "exit" then Reply([ExitLine], true)
    else Reply([UnknownLine(name)], false)
  }

  /** process_command: tokenise, then dispatch on the lower-cased first word.
      The arguments keep their case. */
  function ProcessCommand(input: string): (r: Reply)
    ensures AllSpace(input) ==> r == Reply([], false)
    ensures !AllSpace(input) ==> r.lines != []
    ensures r.exit <==> Split(input) != [] && Lower(Split(input)[0]) == "exit"
  {
    SplitStrip(input);
    SplitNoneIffBlank(input);
    var parts := Split(Strip(input));
    if parts == [] then Reply([], false)
    else Dispatch(Lower(parts[0]), parts[1..])
  }

  // ---------------------------------------------------------------------
  // Properties of the dispatcher
  // ---------------------------------------------------------------------

  /** Only the words matter: how much whitespace separates them does not, and
      the command word is compared after lower-casing. */
  lemma SameWordsSameReply(a: string, b: string)
    requires Split(a) != [] && Split(b) != []
    requires Lower(Split(a)[0]) == Lower(Split(b)[0])
    requires Split(a)[1..] == Split(b)[1..]
    ensures ProcessCommand(a) == ProcessCommand(b)
  {
    SplitStrip(a);
    SplitStrip(b);
  }

  /** Only the words of a line matter to the dispatcher: widening any gap
      between them, or at either end, does not change the reply. */
  lemma WhitespaceRunsCollapse(a: string, w: string, b: string)
    requires w != [] && AllSpace(w)
    ensures ProcessCommand(a + w + b) == ProcessCommand(a + " " + b)
  {
    SplitSeparated(a, w, b);
    SplitSeparated(a, " ", b);
    SplitStrip(a + w + b);
    SplitStrip(a + " " + b);
  }

  /** A command word in any letter case selects the same branch. */
  lemma CommandWordCaseInsensitive(a: string, b: string)
    requires Split(a) != [] && Split(b) != []
    requires Lower(Split(a)[0]) == Lower(Split(b)[0])
    requires Split(a)[1..] == Split(b)[1..]
    ensures ProcessCommand(a) == ProcessCommand(Lower(Split(b)[0]) + " " + Join(Split(b)[1..], " "))
  {
    var w := Split(b)[0];
    var lw := Lower(w);
    assert IsWord(lw) by {
      forall i | 0 <= i < |lw| ensures !IsSpace(lw[i]) {
        assert lw[i] == LowerChar(w[i]);
      }
    }
    var rest := Split(b)[1..];
    var line := lw + " " + Join(rest, " ");
    if rest == [] {
      assert Join([lw] + rest, " ") == lw;
      SplitJoin([lw]);
      assert Split(lw) == [lw];
      SplitAppendSpace(lw, ' ');
      assert line == lw + [' '];
    } else {
      assert Join([lw] + rest, " ") == line by {
        assert ([lw] + rest)[1..] == rest;
      }
      SplitJoin([lw] + rest);
    }
    assert Split(line)[0] == lw;
    LowerIdempotent(w);
    SameWordsSameReply(a, line);
  }

  /** help prints the help table, whatever its arguments. */
  lemma HelpReply(input: string)
    requires Split(input) != [] && Lower(Split(input)[0]) == "help"
    ensures ProcessCommand(input) == Reply(HelpLines(CommandsHelp), false)
  {
    SplitStrip(input);
  }

  /** hello prints its greeting, whatever its arguments. */
  lemma HelloReply(input: string)
    requires Split(input) != [] && Lower(Split(input)[0]) == "hello"
    ensures ProcessCommand(input) == Reply(["Hello there, user!"], false)
  {
    SplitStrip(input);
  }

  /** exit prints its farewell and ends the session, whatever its arguments. */
  lemma ExitReply(input: string)
    requires Split(input) != [] && Lower(Split(input)[0]) == "exit"
    ensures ProcessCommand(input) == Reply([ExitLine], true)
  {
    SplitStrip(input);
  }

  /** greet echoes its arguments, joined by single spaces, or prints its
      usage line when there are none. */
  lemma GreetReply(input: string)
    requires Split(input) != [] && Lower(Split(input)[0]) == "greet"
    ensures var args := Split(input)[1..];
            ProcessCommand(input) == Reply([if args == [] then GreetUsage
                                            else "Greetings, " + Join(args, " ") + "!"], false)
  {
    SplitStrip(input);
  }

  /** define_mnode: the first argument is the id, the others joined are the
      data ("No data" when there are none); no argument prints the usage line. */
  lemma DefineMnodeReply(input: string)
    requires Split(input) != [] && Lower(Split(input)[0]) == "define_mnode"
    ensures var args := Split(input)[1..];
            ProcessCommand(input).lines ==
              if args == [] then [DefineUsage]
              else DefineLines(args[0], if |args| == 1 then "No data" else Join(args[1..], " "))
  {
    SplitStrip(input);
  }

  /** link_mnodes answers only to exactly three arguments. */
  lemma LinkMnodesArity(input: string)
    requires Split(input) != [] && Lower(Split(input)[0]) == "link_mnodes"
    ensures var args := Split(input)[1..];
            ProcessCommand(input).lines ==
              if |args| == 3 then LinkLines(args[0], args[1], args[2]) else [LinkUsage]
  {
    SplitStrip(input);
  }

  /** Two commands are advertised in the help table without a branch of their
      own: typing them prints the unknown-command line with the lower-cased
      word. */
  lemma AdvertisedButUnhandled(input: string)
    requires Split(input) != []
    requires Lower(Split(input)[0]) in {"add", "config"}
    ensures ProcessCommand(input) == Reply([UnknownLine(Lower(Split(input)[0]))], false)
  {
    SplitStrip(input);
  }

  /** The words "add" and "config" do head entries of the help table. */
  lemma HelpTableListsAddAndConfig()
    ensures CommandsHelp[2].0[..4] == "add " && CommandsHelp[3].0[..7] == "config "
    ensures "add" !in Handled && "config" !in Handled
  {
    var a := CommandsHelp[2].0;
    assert a == "add <num1> <num2>";
    assert a[0] == 'a' && a[1] == 'd' && a[2] == 'd' && a[3] == ' ';
    assert a[..4] == [a[0], a[1], a[2], a[3]];
    var c := CommandsHelp[3].0;
    assert c == "config <setting> [--value <val>] [--show]";
    assert c[0] == 'c' && c[1] == 'o' && c[2] == 'n' && c[3] == 'f' && c[4] == 'i' && c[5] == 'g' && c[6] == ' ';
    assert c[..7] == [c[0], c[1], c[2], c[3], c[4], c[5], c[6]];
  }
}
