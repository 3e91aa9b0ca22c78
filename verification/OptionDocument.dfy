/** `goods_options_parser`: the option part of a goods description. A line "# title" opens an option and
    each following line "name price" adds a selection to it. */
module OptionDocument {
  import opened Wrappers

  datatype Selection = Selection(name: string, price: string)

  datatype GoodsOption = GoodsOption(name: string, selections: seq<Selection>)

  // ---- cutting and trimming ----

  predicate IsEol(c: char) { c == '\r' || c == '\n' }

  predicate IsBlank(c: char) { c == ' ' || c == '\t' }

  /** `std::isspace` of the "C" locale. */
  predicate IsSpace(c: char) { IsBlank(c) || IsEol(c) || c == '\U{B}' || c == '\U{C}' }

  /** The separators of the two calls of `boost::split`. */
  datatype Cut = AtEol | AtBlank {
    predicate Is(c: char) {
      match this
      case AtEol => IsEol(c)
      case AtBlank => IsBlank(c)
    }

    predicate Free(s: string) {
      forall i :: 0 <= i < |s| ==> !Is(s[i])
    }
  }

  /** Pieces between separators; neighbouring separators have an empty piece between them. */
  function Split(s: string, cut: Cut): (pieces: seq<string>)
    ensures |pieces| >= 1
    ensures forall i :: 0 <= i < |pieces| ==> cut.Free(pieces[i])
  {
    if s == "" then [""]
    else if cut.Is(s[0]) then [""] + Split(s[1..], cut)
    else
      var rest := Split(s[1..], cut);
      [[s[0]] + rest[0]] + rest[1..]
  }

  function TrimLeft(s: string): (r: string)
    ensures r == "" || !IsSpace(r[0])
    ensures |r| <= |s| && r == s[|s| - |r|..]
  {
    if s != "" && IsSpace(s[0]) then TrimLeft(s[1..]) else s
  }

  function TrimRight(s: string): (r: string)
    ensures r == "" || !IsSpace(r[|r| - 1])
    ensures |r| <= |s| && r == s[..|r|]
  {
    if s != "" && IsSpace(s[|s| - 1]) then TrimRight(s[..|s| - 1]) else s
  }

  function Trim(s: string): string {
    TrimLeft(TrimRight(s))
  }

  predicate Trimmed(s: string) {
    s != "" ==> !IsSpace(s[0]) && !IsSpace(s[|s| - 1])
  }

  lemma SliceFree(s: string, i: nat, j: nat, cut: Cut)
    requires i <= j <= |s| && cut.Free(s)
    ensures cut.Free(s[i..j])
  {
  }

  lemma TrimIsTrimmed(s: string)
    ensures Trimmed(Trim(s))
    ensures AtEol.Free(s) ==> AtEol.Free(Trim(s))
  {
    hide TrimLeft, TrimRight, IsSpace, IsEol;
    var r := TrimRight(s);
    var l := TrimLeft(r);
    if l != "" {
      LastOfDrop(r, |r| - |l|);
    }
    TakeThenDrop(s, |r|, |r| - |l|);
    if AtEol.Free(s) {
      SliceFree(s, |r| - |l|, |r|, AtEol);
    }
  }

  lemma LastOfDrop(r: string, i: nat)
    requires i < |r|
    ensures r[i..][|r| - i - 1] == r[|r| - 1]
  {
  }

  lemma TakeThenDrop(s: string, n: nat, i: nat)
    requires i <= n <= |s|
    ensures s[..n][i..] == s[i..n]
  {
  }

  lemma TrimDropsTheBlank(s: string)
    requires Trimmed(s)
    ensures Trim(" " + s) == s
  {
    var t := " " + s;
    if s == "" {
      assert t[..|t| - 1] == "" && TrimRight("") == "";
    } else {
      assert TrimRight(t) == t;
      assert t[1..] == s;
      assert TrimLeft(t) == TrimLeft(s);
    }
  }

  // ---- the line loop ----

  /** The variables of the loop. */
  datatype Scan = Scan(ret: seq<GoodsOption>, curBlock: GoodsOption, hasBlock: bool)

  const NO_BLOCK := GoodsOption("", [])

  /** What has been read, the open block included. */
  function Read(st: Scan): seq<GoodsOption> {
    if st.hasBlock then st.ret + [st.curBlock] else st.ret
  }

  function LineStep(st: Scan, l: string): Scan {
    if |l| < 2 then st
    else if l[0] == '#' then
      Scan(Read(st), GoodsOption(Trim(l[1..]), []), true)
    else
      var items := Split(l, AtBlank);
      if |items| == 1 then Select(st, Selection(items[0], "0"))
      else if |items| == 2 then Select(st, Selection(items[0], items[1]))
      else st
  }

  function Select(st: Scan, s: Selection): Scan {
    st.(curBlock := GoodsOption(st.curBlock.name, st.curBlock.selections + [s]))
  }

  function Feed(st: Scan, lines: seq<string>): Scan
    decreases |lines|
  {
    if lines == [] then st else Feed(LineStep(st, lines[0]), lines[1..])
  }

  const FRESH := Scan([], NO_BLOCK, false)

  function Result(st: Scan): Option<seq<GoodsOption>> {
    if |Read(st)| == 0 then None else Some(Read(st))
  }

  function Parse(document: string): Option<seq<GoodsOption>> {
    Result(Feed(FRESH, Split(document, AtEol)))
  }

  method ParseLines(lines: seq<string>) returns (r: Option<seq<GoodsOption>>)
    ensures r == Result(Feed(FRESH, lines))
  {
    var ret: seq<GoodsOption> := [];
    var hasBlock := false;
    var curBlock := NO_BLOCK;
    var i := 0;
    while i < |lines|
      invariant 0 <= i <= |lines|
      invariant Feed(Scan(ret, curBlock, hasBlock), lines[i..]) == Feed(FRESH, lines)
    {
      var l := lines[i];
      assert lines[i..][0] == l && lines[i..][1..] == lines[i + 1..];
      i := i + 1;
      if |l| < 2 {
        continue;
      }
      if l[0] == '#' {
        if hasBlock {
          ret := ret + [curBlock];
        }
        curBlock := GoodsOption(Trim(l[1..]), []);
        hasBlock := true;
      } else {
        var items := Split(l, AtBlank);
        if |items| == 1 {
          curBlock := GoodsOption(curBlock.name, curBlock.selections + [Selection(items[0], "0")]);
        } else if |items| == 2 {
          curBlock := GoodsOption(curBlock.name, curBlock.selections + [Selection(items[0], items[1])]);
        }
      }
    }
    if hasBlock {
      ret := ret + [curBlock];
    }
    r := if |ret| == 0 then None else Some(ret);
  }

  method ParseGoodsOption(document: string) returns (r: Option<seq<GoodsOption>>)
    ensures r == Parse(document)
  {
    r := ParseLines(Split(document, AtEol));
  }

  // ---- what a document can say ----

  predicate WellFormedSelection(s: Selection) {
    && AtEol.Free(s.name) && AtBlank.Free(s.name) && AtEol.Free(s.price) && AtBlank.Free(s.price)
    && |s.name| + |s.price| >= 1 && (s.name != "" ==> s.name[0] != '#')
  }

  predicate WellFormed(o: GoodsOption) {
    && Trimmed(o.name) && AtEol.Free(o.name)
    && forall i :: 0 <= i < |o.selections| ==> WellFormedSelection(o.selections[i])
  }

  predicate NoneOf(s: string, chars: string) {
    forall i :: 0 <= i < |s| ==> s[i] !in chars
  }

  /** Well-formedness in letters. */
  lemma WellFormedIs(o: GoodsOption)
    ensures WellFormed(o) <==>
      && (o.name != "" ==> o.name[0] !in " \t\r\n\U{B}\U{C}" && o.name[|o.name| - 1] !in " \t\r\n\U{B}\U{C}")
      && NoneOf(o.name, "\r\n")
      && forall i :: 0 <= i < |o.selections| ==>
           var s := o.selections[i];
           && NoneOf(s.name, " \t\r\n") && NoneOf(s.price, " \t\r\n")
           && (s.name != "" || s.price != "") && (s.name != "" ==> s.name[0] != '#')
  {
    hide NoneOf, IsSpace, WellFormedSelection;
    TrimmedIs(o.name);
    FreeIs(o.name);
    forall i | 0 <= i < |o.selections|
      ensures var s := o.selections[i];
        WellFormedSelection(s) <==>
          && NoneOf(s.name, " \t\r\n") && NoneOf(s.price, " \t\r\n")
          && (s.name != "" || s.price != "") && (s.name != "" ==> s.name[0] != '#')
    {
      SelectionIs(o.selections[i]);
    }
  }

  lemma TrimmedIs(s: string)
    ensures Trimmed(s) <==>
      (s != "" ==> s[0] !in " \t\r\n\U{B}\U{C}" && s[|s| - 1] !in " \t\r\n\U{B}\U{C}")
  {
    hide IsSpace;
    if s != "" {
      SpaceIs(s[0]);
      SpaceIs(s[|s| - 1]);
    }
  }

  lemma FreeIs(s: string)
    ensures NoneOf(s, "\r\n") <==> AtEol.Free(s)
    ensures NoneOf(s, " \t\r\n") <==> AtEol.Free(s) && AtBlank.Free(s)
  {
  }

  lemma SelectionIs(s: Selection)
    ensures WellFormedSelection(s) <==>
      && NoneOf(s.name, " \t\r\n") && NoneOf(s.price, " \t\r\n")
      && (s.name != "" || s.price != "") && (s.name != "" ==> s.name[0] != '#')
  {
    hide NoneOf;
    FreeIs(s.name);
    FreeIs(s.price);
  }

  predicate AllWellFormed(os: seq<GoodsOption>) {
    forall i :: 0 <= i < |os| ==> WellFormed(os[i])
  }

  function PrintSelections(ss: seq<Selection>, eol: string): string {
    if ss == [] then "" else ss[0].name + " " + ss[0].price + eol + PrintSelections(ss[1..], eol)
  }

  function PrintOption(o: GoodsOption, eol: string): string {
    "# " + o.name + eol + PrintSelections(o.selections, eol)
  }

  function Print(os: seq<GoodsOption>, eol: string): string {
    if os == [] then "" else PrintOption(os[0], eol) + Print(os[1..], eol)
  }

  /** "\n", "\r\n", or any other run of line ends. */
  predicate LineEnd(eol: string) {
    eol != "" && forall i :: 0 <= i < |eol| ==> eol[i] in "\r\n"
  }

  // ---- splitting what was printed ----

  lemma {:induction false} SplitFree(s: string, cut: Cut)
    requires cut.Free(s)
    ensures Split(s, cut) == [s]
  {
    if s != "" {
      SplitFree(s[1..], cut);
      assert [s[0]] + s[1..] == s;
    }
  }

  lemma {:induction false} SplitAtFirst(s: string, c: char, rest: string, cut: Cut)
    requires cut.Free(s) && cut.Is(c)
    ensures Split(s + [c] + rest, cut) == [s] + Split(rest, cut)
  {
    var t := s + [c] + rest;
    if s == "" {
      assert t[1..] == rest;
    } else {
      assert t[1..] == s[1..] + [c] + rest;
      SplitAtFirst(s[1..], c, rest, cut);
      assert [s[0]] + s[1..] == s;
    }
  }

  function FeedText(st: Scan, text: string): Scan {
    Feed(st, Split(text, AtEol))
  }

  lemma FeedCons(st: Scan, l: string, ls: seq<string>)
    ensures Feed(st, [l] + ls) == Feed(LineStep(st, l), ls)
  {
    assert ([l] + ls)[1..] == ls;
  }

  /** A line of text, with its line end, is one step of the loop. */
  lemma {:induction false} FeedLine(st: Scan, line: string, eol: string, rest: string)
    requires AtEol.Free(line) && LineEnd(eol)
    ensures FeedText(st, line + eol + rest) == FeedText(LineStep(st, line), rest)
    decreases |eol|
  {
    hide LineStep, Split, Feed;
    EolHead(line, eol, rest);
    SplitAtFirst(line, eol[0], eol[1..] + rest, AtEol);
    FeedCons(st, line, Split(eol[1..] + rest, AtEol));
    if |eol| > 1 {
      FeedLine(LineStep(st, line), "", eol[1..], rest);
      assert "" + eol[1..] + rest == eol[1..] + rest;
      EmptyLine(LineStep(st, line));
    } else {
      assert eol[1..] + rest == rest;
    }
  }

  lemma EolHead(line: string, eol: string, rest: string)
    requires eol != ""
    ensures line + eol + rest == line + [eol[0]] + (eol[1..] + rest)
  {
  }

  lemma EmptyLine(st: Scan)
    ensures LineStep(st, "") == st
  {
  }

  // ---- reading one line that was printed ----

  lemma TitleLine(st: Scan, title: string)
    requires Trimmed(title)
    ensures LineStep(st, "# " + title)
         == Scan(Read(st), GoodsOption(title, []), true)
  {
    assert ("# " + title)[1..] == " " + title;
    TrimDropsTheBlank(title);
  }

  lemma SelectionLine(st: Scan, s: Selection)
    requires WellFormedSelection(s)
    ensures LineStep(st, s.name + " " + s.price) == Select(st, s)
    ensures AtEol.Free(s.name + " " + s.price)
  {
    hide Split, Select;
    var l := s.name + " " + s.price;
    SplitAtFirst(s.name, ' ', s.price, AtBlank);
    SplitFree(s.price, AtBlank);
    assert l == s.name + [' '] + s.price;
    assert l[0] == if s.name == "" then ' ' else s.name[0];
  }

  function Selected(st: Scan, ss: seq<Selection>): Scan {
    st.(curBlock := GoodsOption(st.curBlock.name, st.curBlock.selections + ss))
  }

  lemma SelectedCons(st: Scan, ss: seq<Selection>)
    requires ss != []
    ensures Selected(Select(st, ss[0]), ss[1..]) == Selected(st, ss)
  {
    assert st.curBlock.selections + [ss[0]] + ss[1..] == st.curBlock.selections + ss;
  }

  lemma {:induction false} SelectionLines(st: Scan, ss: seq<Selection>, eol: string, rest: string)
    requires LineEnd(eol) && forall i :: 0 <= i < |ss| ==> WellFormedSelection(ss[i])
    ensures FeedText(st, PrintSelections(ss, eol) + rest) == FeedText(Selected(st, ss), rest)
    decreases |ss|
  {
    hide LineEnd, WellFormedSelection, FeedText, Selected, LineStep, Select;
    if ss == [] {
      assert PrintSelections(ss, eol) + rest == rest;
      SelectedNone(st, ss);
    } else {
      var line, more := ss[0].name + " " + ss[0].price, PrintSelections(ss[1..], eol) + rest;
      assert PrintSelections(ss, eol) + rest == line + eol + more;
      SelectionLine(st, ss[0]);
      FeedLine(st, line, eol, more);
      SelectionLines(Select(st, ss[0]), ss[1..], eol, rest);
      SelectedCons(st, ss);
    }
  }

  lemma SelectedNone(st: Scan, ss: seq<Selection>)
    requires ss == []
    ensures Selected(st, ss) == st
  {
    assert st.curBlock.selections + ss == st.curBlock.selections;
  }

  lemma OptionText(st: Scan, o: GoodsOption, eol: string, rest: string)
    requires WellFormed(o) && LineEnd(eol)
    ensures FeedText(st, PrintOption(o, eol) + rest) == FeedText(Scan(Read(st), o, true), rest)
  {
    hide FeedText, LineStep, LineEnd, WellFormedSelection, PrintSelections;
    var open := Scan(Read(st), GoodsOption(o.name, []), true);
    var more := PrintSelections(o.selections, eol) + rest;
    assert PrintOption(o, eol) + rest == ("# " + o.name) + eol + more;
    TitleLine(st, o.name);
    FeedLine(st, "# " + o.name, eol, more);
    SelectionLines(open, o.selections, eol, rest);
    assert [] + o.selections == o.selections;
  }

  lemma {:induction false} DocumentText(st: Scan, os: seq<GoodsOption>, eol: string)
    requires AllWellFormed(os) && LineEnd(eol)
    ensures Read(FeedText(st, Print(os, eol))) == Read(st) + os
    decreases |os|
  {
    hide WellFormed, LineEnd, FeedText, PrintOption;
    if os == [] {
      NoText(st, Print(os, eol));
    } else {
      var next := Scan(Read(st), os[0], true);
      OptionText(st, os[0], eol, Print(os[1..], eol));
      DocumentText(next, os[1..], eol);
      assert Read(st) + [os[0]] + os[1..] == Read(st) + os;
    }
  }

  lemma NoText(st: Scan, text: string)
    requires text == ""
    ensures FeedText(st, text) == st
  {
    assert Split(text, AtEol) == [""];
    FeedCons(st, "", []);
    assert [""] + [] == [""];
  }

  // ---- what is read is well formed ----

  ghost predicate Orderly(st: Scan) {
    AllWellFormed(st.ret) && WellFormed(st.curBlock)
  }

  lemma {:induction false} SplitTwo(s: string, cut: Cut)
    ensures |Split(s, cut)| == 1 ==> Split(s, cut)[0] == s
    ensures |Split(s, cut)| == 2 ==>
      var name, price := Split(s, cut)[0], Split(s, cut)[1];
      |s| == |name| + 1 + |price| && s[..|name|] == name && s[|name| + 1..] == price
  {
    if s != "" {
      SplitTwo(s[1..], cut);
      assert s == [s[0]] + s[1..];
    }
  }

  lemma SplitSelection(l: string)
    requires AtEol.Free(l) && |l| >= 2 && l[0] != '#'
    ensures var items := Split(l, AtBlank);
      && (|items| == 1 ==> WellFormedSelection(Selection(items[0], "0")))
      && (|items| == 2 ==> WellFormedSelection(Selection(items[0], items[1])))
  {
    hide Split;
    SplitTwo(l, AtBlank);
    var items := Split(l, AtBlank);
    if |items| == 2 {
      SliceFree(l, 0, |items[0]|, AtEol);
      SliceFree(l, |items[0]| + 1, |l|, AtEol);
      assert l[0..|items[0]|] == items[0] && l[|items[0]| + 1..|l|] == items[1];
    }
  }

  lemma StepKeepsOrderly(st: Scan, l: string)
    requires Orderly(st) && AtEol.Free(l)
    ensures Orderly(LineStep(st, l))
  {
    hide Split, WellFormedSelection, Trim;
    if |l| >= 2 {
      if l[0] == '#' {
        SliceFree(l, 1, |l|, AtEol);
        TrimIsTrimmed(l[1..]);
      } else {
        SplitSelection(l);
      }
    }
  }

  lemma {:induction false} FeedKeepsOrderly(st: Scan, lines: seq<string>)
    requires Orderly(st) && forall i :: 0 <= i < |lines| ==> AtEol.Free(lines[i])
    ensures Orderly(Feed(st, lines))
    decreases |lines|
  {
    hide Orderly, LineStep;
    if lines != [] {
      StepKeepsOrderly(st, lines[0]);
      FeedKeepsOrderly(LineStep(st, lines[0]), lines[1..]);
    }
  }

  /** Every result is a nonempty list of well-formed options. */
  lemma ParsedIsWellFormed(document: string)
    requires Parse(document).Some?
    ensures Parse(document).value != [] && AllWellFormed(Parse(document).value)
  {
    hide Feed, Split;
    FeedKeepsOrderly(FRESH, Split(document, AtEol));
  }

  /** A printed list is read back exactly when it is nonempty and well formed. */
  lemma RoundTripExactly(os: seq<GoodsOption>, eol: string)
    requires LineEnd(eol)
    ensures Parse(Print(os, eol)) == Some(os) <==> os != [] && AllWellFormed(os)
  {
    hide Feed, Split, WellFormed;
    if os != [] && AllWellFormed(os) {
      DocumentText(FRESH, os, eol);
      assert [] + os == os;
    }
    if Parse(Print(os, eol)) == Some(os) {
      ParsedIsWellFormed(Print(os, eol));
    }
  }

  /** Printing what was read, with any line ends, and reading it again changes nothing. */
  lemma ReadingIsStable(document: string, eol: string)
    requires LineEnd(eol) && Parse(document).Some?
    ensures Parse(Print(Parse(document).value, eol)) == Parse(document)
  {
    ParsedIsWellFormed(document);
    RoundTripExactly(Parse(document).value, eol);
  }

  // ---- every other line ----

  /** The same list with one more selection in its last option. */
  function WithSelections(os: seq<GoodsOption>, ss: seq<Selection>): seq<GoodsOption>
    requires os != []
  {
    var last := os[|os| - 1];
    os[..|os| - 1] + [GoodsOption(last.name, last.selections + ss)]
  }

  /** The state after a printed list, whatever follows. */
  lemma {:induction false} DocumentThen(st: Scan, os: seq<GoodsOption>, eol: string, rest: string)
    requires AllWellFormed(os) && LineEnd(eol) && os != []
    ensures FeedText(st, Print(os, eol) + rest)
         == FeedText(Scan(Read(st) + os[..|os| - 1], os[|os| - 1], true), rest)
    decreases |os|
  {
    hide WellFormed, LineEnd, FeedText, PrintOption;
    var next := Scan(Read(st), os[0], true);
    assert Print(os, eol) + rest == PrintOption(os[0], eol) + (Print(os[1..], eol) + rest);
    OptionText(st, os[0], eol, Print(os[1..], eol) + rest);
    if |os| == 1 {
      assert Print(os[1..], eol) + rest == rest;
      assert Read(st) + os[..0] == Read(st);
    } else {
      DocumentThen(next, os[1..], eol, rest);
      assert os[..|os| - 1] == [os[0]] + os[1..][..|os[1..]| - 1];
      assert Read(st) + [os[0]] + os[1..][..|os[1..]| - 1] == Read(st) + os[..|os| - 1];
    }
  }

  /** What a line that is no title adds: nothing if it has fewer than two characters; without a blank
      it is a name of price 0; with one blank a name and its price; with more nothing. */
  ghost predicate Adds(line: string, ss: seq<Selection>) {
    if |line| < 2 then ss == []
    else if ' ' !in line && '\t' !in line then ss == [Selection(line, "0")]
    else if exists i, j :: 0 <= i < j < |line| && IsBlank(line[i]) && IsBlank(line[j]) then ss == []
    else exists k :: 0 <= k < |line| && IsBlank(line[k]) && ss == [Selection(line[..k], line[k + 1..])]
  }

  lemma {:induction false} TwoBlanks(s: string, i: nat, j: nat, cut: Cut)
    requires i < j < |s| && cut.Is(s[i]) && cut.Is(s[j])
    ensures |Split(s, cut)| >= 3
  {
    if i > 0 {
      TwoBlanks(s[1..], i - 1, j - 1, cut);
    } else {
      OneBlank(s[1..], j - 1, cut);
    }
  }

  lemma {:induction false} OneBlank(s: string, i: nat, cut: Cut)
    requires i < |s| && cut.Is(s[i])
    ensures |Split(s, cut)| >= 2
  {
    if i > 0 {
      OneBlank(s[1..], i - 1, cut);
    }
  }

  lemma NoBlank(line: string)
    requires ' ' !in line && '\t' !in line
    ensures AtBlank.Free(line)
  {
  }

  lemma OnlyBlank(line: string, k: nat)
    requires k < |line| && IsBlank(line[k])
    requires !exists i, j :: 0 <= i < j < |line| && IsBlank(line[i]) && IsBlank(line[j])
    ensures Split(line, AtBlank) == [line[..k], line[k + 1..]]
  {
    hide Split, IsBlank;
    assert AtBlank.Free(line[..k]) && AtBlank.Free(line[k + 1..]);
    assert line == line[..k] + [line[k]] + line[k + 1..];
    SplitAtFirst(line[..k], line[k], line[k + 1..], AtBlank);
    SplitFree(line[k + 1..], AtBlank);
  }

  lemma LineAdds(st: Scan, line: string, ss: seq<Selection>)
    requires (line != "" ==> line[0] != '#') && Adds(line, ss)
    ensures LineStep(st, line) == Selected(st, ss)
  {
    hide Split, IsBlank;
    if |line| < 2 {
      SelectedNone(st, ss);
    } else if ' ' !in line && '\t' !in line {
      NoBlank(line);
      SplitFree(line, AtBlank);
    } else if i, j :| 0 <= i < j < |line| && IsBlank(line[i]) && IsBlank(line[j]) {
      TwoBlanks(line, i, j, AtBlank);
      SelectedNone(st, ss);
    } else {
      var k :| 0 <= k < |line| && IsBlank(line[k]) && ss == [Selection(line[..k], line[k + 1..])];
      OnlyBlank(line, k);
    }
  }

  /** A line that is no title, anywhere after the first title: exactly what it adds goes to the
      option above it, and nothing else changes. */
  lemma LineInDocument(os: seq<GoodsOption>, line: string, ss: seq<Selection>, more: seq<GoodsOption>, eol: string)
    requires os != [] && AllWellFormed(os) && AllWellFormed(more) && LineEnd(eol)
    requires AtEol.Free(line) && (line != "" ==> line[0] != '#') && Adds(line, ss)
    ensures Parse(Print(os, eol) + (line + eol + Print(more, eol))) == Some(WithSelections(os, ss) + more)
  {
    hide Feed, Split, WellFormed, LineStep, Adds, PrintOption, LineEnd;
    var rest := line + eol + Print(more, eol);
    var st := Scan(os[..|os| - 1], os[|os| - 1], true);
    DocumentThen(FRESH, os, eol, rest);
    assert [] + os[..|os| - 1] == os[..|os| - 1];
    FeedLine(st, line, eol, Print(more, eol));
    LineAdds(st, line, ss);
    DocumentText(Selected(st, ss), more, eol);
    assert Read(Selected(st, ss)) == WithSelections(os, ss);
  }

  function PrintLines(lines: seq<string>, eol: string): string {
    if lines == [] then "" else lines[0] + eol + PrintLines(lines[1..], eol)
  }

  lemma NotATitle(st: Scan, line: string)
    requires !st.hasBlock && st.ret == [] && (line != "" ==> line[0] != '#')
    ensures !LineStep(st, line).hasBlock && LineStep(st, line).ret == []
  {
  }

  lemma {:induction false} LinesBefore(st: Scan, lines: seq<string>, os: seq<GoodsOption>, eol: string)
    requires AllWellFormed(os) && LineEnd(eol) && !st.hasBlock && st.ret == []
    requires forall i :: 0 <= i < |lines| ==> AtEol.Free(lines[i]) && (lines[i] != "" ==> lines[i][0] != '#')
    ensures Read(FeedText(st, PrintLines(lines, eol) + Print(os, eol))) == os
    decreases |lines|
  {
    hide WellFormed, LineEnd, FeedText, PrintOption, LineStep;
    if lines == [] {
      assert PrintLines(lines, eol) + Print(os, eol) == Print(os, eol);
      DocumentText(st, os, eol);
      assert [] + os == os;
    } else {
      var rest := PrintLines(lines[1..], eol) + Print(os, eol);
      assert PrintLines(lines, eol) + Print(os, eol) == lines[0] + eol + rest;
      FeedLine(st, lines[0], eol, rest);
      NotATitle(st, lines[0]);
      LinesBefore(LineStep(st, lines[0]), lines[1..], os, eol);
    }
  }

  /** Lines before the first title add nothing. */
  lemma LinesBeforeTheFirstTitle(lines: seq<string>, os: seq<GoodsOption>, eol: string)
    requires os != [] && AllWellFormed(os) && LineEnd(eol)
    requires forall i :: 0 <= i < |lines| ==> AtEol.Free(lines[i]) && (lines[i] != "" ==> lines[i][0] != '#')
    ensures Parse(PrintLines(lines, eol) + Print(os, eol)) == Some(os)
  {
    hide Feed, Split, WellFormed;
    LinesBefore(FRESH, lines, os, eol);
  }

  /** White space inside a line: blanks, tabs, vertical tabs and form feeds. */
  predicate IsPad(s: string) {
    forall i :: 0 <= i < |s| ==> s[i] in " \t\U{B}\U{C}"
  }

  lemma SpaceIs(c: char)
    ensures IsSpace(c) <==> c in " \t\r\n\U{B}\U{C}"
  {
  }

  lemma {:induction false} TrimLeftPad(pad: string, s: string)
    requires IsPad(pad) && (s != "" ==> s[0] !in " \t\r\n\U{B}\U{C}")
    ensures TrimLeft(pad + s) == s
  {
    hide IsSpace;
    if pad == "" {
      assert pad + s == s;
      if s != "" {
        SpaceIs(s[0]);
      }
    } else {
      SpaceIs(pad[0]);
      assert (pad + s)[0] == pad[0] && (pad + s)[1..] == pad[1..] + s;
      TrimLeftPad(pad[1..], s);
    }
  }

  lemma {:induction false} TrimRightPad(s: string, pad: string)
    requires IsPad(pad) && (s != "" ==> s[|s| - 1] !in " \t\r\n\U{B}\U{C}")
    ensures TrimRight(s + pad) == s
  {
    hide IsSpace;
    if pad == "" {
      assert s + pad == s;
      if s != "" {
        SpaceIs(s[|s| - 1]);
      }
    } else {
      SpaceIs(pad[|pad| - 1]);
      assert (s + pad)[|s + pad| - 1] == pad[|pad| - 1] && (s + pad)[..|s + pad| - 1] == s + pad[..|pad| - 1];
      TrimRightPad(s, pad[..|pad| - 1]);
    }
  }

  /** A title line: what follows the '#' without the white space around it. */
  lemma TitleInLine(st: Scan, left: string, title: string, right: string)
    requires IsPad(left) && IsPad(right) && left + title + right != ""
    requires title != "" ==> title[0] !in " \t\r\n\U{B}\U{C}" && title[|title| - 1] !in " \t\r\n\U{B}\U{C}"
    ensures LineStep(st, "#" + (left + title + right)) == Scan(Read(st), GoodsOption(title, []), true)
  {
    hide TrimLeft, TrimRight;
    var l := left + title + right;
    assert ("#" + l)[1..] == l;
    if title == "" {
      PadsJoin(left, right);
      assert l == "" + (left + right);
      TrimRightPad("", left + right);
      TrimLeftPad("", "");
      assert "" + "" == "";
    } else {
      assert l == (left + title) + right;
      assert (left + title)[|left + title| - 1] == title[|title| - 1];
      TrimRightPad(left + title, right);
      TrimLeftPad(left, title);
    }
  }

  lemma PadsJoin(a: string, b: string)
    requires IsPad(a) && IsPad(b)
    ensures IsPad(a + b)
  {
  }
}
