/**
 * The manifest reader (`parseFile` of both generator classes): a line-oriented
 * list of source files sorted into the hw, comp and sim groups, plus the name
 * of the top-level simulation entity.
 */
module Manifest {
  import opened Wrappers
  import opened Text

  /** One manifest entry: the whitespace-separated tokens of its line (path first, then the library). */
  type Entry = s: seq<string> | |s| > 0 witness [""]

  /** The source file an entry names (`f[0]`). */
  function Source(e: Entry): string
  {
    e[0]
  }

  /** The library an entry names, when its line has a second token (`f[1]`). */
  function Lib(e: Entry): Option<string>
  {
    if |e| > 1 then Some(e[1]) else None
  }

  datatype Group = Hw | Comp | Sim

  /** How parseFile reads one line once it is stripped. */
  datatype Line = Switch(group: Group) | Blank | TopLevel(name: string) | Item(tokens: Entry)

  /**
   * The classification of one raw line, in the order parseFile tests it: the
   * three group switches, blank, the `toplevel:` prefix (the name starts at
   * index 10, one character after the colon), and otherwise an entry.
   */
  function ReadLine(raw: string): (l: Line)
    ensures l.Blank? <==> AllSpace(raw)
    ensures l.Item? ==> forall t :: t in l.tokens ==> t != [] && NoSpace(t)
    ensures l == Switch(Hw) <==> Strip(raw) == "hw:"
    ensures l == Switch(Comp) <==> Strip(raw) == "comp:"
    ensures l == Switch(Sim) <==> Strip(raw) == "sim:"
    ensures l.TopLevel? <==> |Strip(raw)| >= 9 && Strip(raw)[..9] == "toplevel:"
    ensures l.TopLevel? ==> l.name == if |Strip(raw)| > 10 then Strip(raw)[10..] else ""
    ensures l.Item? <==> !AllSpace(raw) && Strip(raw) !in {"hw:", "comp:", "sim:"}
                         && !(|Strip(raw)| >= 9 && Strip(raw)[..9] == "toplevel:")
    ensures l.Item? ==> l.tokens == Split(Strip(raw))
  {
    var f := Strip(raw);
    if f == "hw:" then Switch(Hw)
    else if f == "comp:" then Switch(Comp)
    else if f == "sim:" then Switch(Sim)
    else if f == "" then Blank
    else if |f| >= 9 && f[..9] == "toplevel:" then TopLevel(if |f| > 10 then f[10..] else "")
    else Item(Split(f))
  }

  /** Every line of the manifest, classified. */
  function ReadLines(lines: seq<string>): (ls: seq<Line>)
    ensures |ls| == |lines|
    ensures forall i :: 0 <= i < |lines| ==> ls[i] == ReadLine(lines[i])
  {
    seq(|lines|, i requires 0 <= i < |lines| => ReadLine(lines[i]))
  }

  /** The group that is active once the lines `read` have been read. */
  function CurrentGroup(read: seq<Line>): Group
  {
    if read == [] then Hw
    else match read[|read| - 1]
      case Switch(g) => g
      case _ => CurrentGroup(read[..|read| - 1])
  }

  /** The entries of group g, in manifest order. */
  function Items(ls: seq<Line>, g: Group): seq<Entry>
  {
    if ls == [] then []
    else
      var n := |ls| - 1;
      Items(ls[..n], g) + (if ls[n].Item? && CurrentGroup(ls[..n]) == g then [ls[n].tokens] else [])
  }

  /** The top-level name: that of the last `toplevel:` line, or "" when there is none. */
  function TopLevelOf(ls: seq<Line>): string
  {
    if ls == [] then ""
    else match ls[|ls| - 1]
      case TopLevel(name) => name
      case _ => TopLevelOf(ls[..|ls| - 1])
  }

  /** The reader's state after one more line, unfolded for the loop in ParseFile. */
  lemma ReadStep(ls: seq<Line>, i: nat)
    requires i < |ls|
    ensures CurrentGroup(ls[..i + 1]) == if ls[i].Switch? then ls[i].group else CurrentGroup(ls[..i])
    ensures TopLevelOf(ls[..i + 1]) == if ls[i].TopLevel? then ls[i].name else TopLevelOf(ls[..i])
    ensures forall g :: (Items(ls[..i + 1], g) ==
      Items(ls[..i], g) + (if ls[i].Item? && CurrentGroup(ls[..i]) == g then [ls[i].tokens] else []))
  {
    assert ls[..i + 1][..i] == ls[..i];
  }

  /** parseFile: one pass over the lines, appending each entry to the active group. */
  method ParseFile(lines: seq<string>) returns (hwlist: seq<Entry>, complist: seq<Entry>, simlist: seq<Entry>, toplevel: string)
    ensures hwlist == Items(ReadLines(lines), Hw)
    ensures complist == Items(ReadLines(lines), Comp)
    ensures simlist == Items(ReadLines(lines), Sim)
    ensures toplevel == TopLevelOf(ReadLines(lines))
  {
    ghost var ls := ReadLines(lines);
    hwlist, complist, simlist, toplevel := [], [], [], "";
    var current := Hw;
    for i := 0 to |lines|
      invariant current == CurrentGroup(ls[..i])
      invariant hwlist == Items(ls[..i], Hw)
      invariant complist == Items(ls[..i], Comp)
      invariant simlist == Items(ls[..i], Sim)
      invariant toplevel == TopLevelOf(ls[..i])
    {
      ReadStep(ls, i);
      var l := ReadLine(lines[i]);
      assert l == ls[i];
      match l
      case Switch(g) => current := g;
      case Blank =>
      case TopLevel(name) => toplevel := name;
      case Item(tokens) =>
        match current
        case Hw => hwlist := hwlist + [tokens];
        case Comp => complist := complist + [tokens];
        case Sim => simlist := simlist + [tokens];
    }
    assert ls[..|lines|] == ls;
  }

  /** Every token of every parsed entry is non-empty and free of whitespace. */
  lemma {:induction false} ItemsWellFormed(lines: seq<string>, g: Group)
    ensures forall e :: e in Items(ReadLines(lines), g) ==> forall t :: t in e ==> t != [] && NoSpace(t)
  {
    var ls := ReadLines(lines);
    forall m | 0 <= m <= |ls|
      ensures forall e :: e in Items(ls[..m], g) ==> forall t :: t in e ==> t != [] && NoSpace(t)
    {
      ItemsFromItemLines(ls, m, g);
    }
    assert ls[..|ls|] == ls;
  }

  lemma {:induction false} ItemsFromItemLines(ls: seq<Line>, m: nat, g: Group)
    requires m <= |ls|
    ensures forall e :: e in Items(ls[..m], g) ==> exists k :: 0 <= k < m && ls[k] == Item(e)
  {
    if m > 0 {
      var p := ls[..m];
      assert p[..m - 1] == ls[..m - 1];
      ItemsFromItemLines(ls, m - 1, g);
    }
  }

  /**
   * The active group is the one named by the last switch line read, and hw
   * when no switch line has been read.
   */
  lemma {:induction false} CurrentGroupIsLastSwitch(read: seq<Line>, j: nat)
    requires j < |read| && read[j].Switch?
    requires forall k :: j < k < |read| ==> !read[k].Switch?
    ensures CurrentGroup(read) == read[j].group
    decreases |read|
  {
    if j < |read| - 1 {
      var p := read[..|read| - 1];
      assert forall k :: j < k < |p| ==> p[k] == read[k];
      CurrentGroupIsLastSwitch(p, j);
    }
  }

  lemma {:induction false} CurrentGroupWithoutSwitch(read: seq<Line>)
    requires forall k :: 0 <= k < |read| ==> !read[k].Switch?
    ensures CurrentGroup(read) == Hw
    decreases |read|
  {
    if read != [] {
      var p := read[..|read| - 1];
      assert forall k :: 0 <= k < |p| ==> p[k] == read[k];
      CurrentGroupWithoutSwitch(p);
    }
  }

  /** Reading more lines only ever appends to a group: earlier entries keep their places. */
  lemma {:induction false} ItemsGrow(ls: seq<Line>, m: nat, g: Group)
    requires m <= |ls|
    ensures Items(ls[..m], g) <= Items(ls, g)
    decreases |ls|
  {
    if m < |ls| {
      var p := ls[..|ls| - 1];
      assert p[..m] == ls[..m];
      ItemsGrow(p, m, g);
    } else {
      assert ls[..m] == ls;
    }
  }

  /**
   * Every entry line lands in the group active when it is read, right after
   * the entries read before it: entries keep manifest order within a group.
   */
  lemma ItemLands(ls: seq<Line>, i: nat)
    requires i < |ls| && ls[i].Item?
    ensures var g := CurrentGroup(ls[..i]);
      |Items(ls[..i], g)| < |Items(ls, g)| &&
      Items(ls, g)[|Items(ls[..i], g)|] == ls[i].tokens
  {
    var g := CurrentGroup(ls[..i]);
    var q := ls[..i + 1];
    assert q[..i] == ls[..i];
    assert Items(q, g) == Items(ls[..i], g) + [ls[i].tokens];
    ItemsGrow(ls, i + 1, g);
  }

  /** An entry line adds to the active group only; switch, blank and toplevel lines add to none. */
  lemma OnlyActiveGroupGrows(ls: seq<Line>, i: nat, g: Group)
    requires i < |ls| && !(ls[i].Item? && CurrentGroup(ls[..i]) == g)
    ensures Items(ls[..i + 1], g) == Items(ls[..i], g)
  {
    assert ls[..i + 1][..i] == ls[..i];
  }

  /** The last `toplevel:` line wins. */
  lemma {:induction false} TopLevelIsLast(ls: seq<Line>, j: nat)
    requires j < |ls| && ls[j].TopLevel?
    requires forall k :: j < k < |ls| ==> !ls[k].TopLevel?
    ensures TopLevelOf(ls) == ls[j].name
    decreases |ls|
  {
    if j < |ls| - 1 {
      var p := ls[..|ls| - 1];
      assert forall k :: j < k < |p| ==> p[k] == ls[k];
      TopLevelIsLast(p, j);
    }
  }

  /** Without a `toplevel:` line the top-level name stays empty. */
  lemma {:induction false} TopLevelDefault(ls: seq<Line>)
    requires forall k :: 0 <= k < |ls| ==> !ls[k].TopLevel?
    ensures TopLevelOf(ls) == ""
    decreases |ls|
  {
    if ls != [] {
      var p := ls[..|ls| - 1];
      assert forall k :: 0 <= k < |p| ==> p[k] == ls[k];
      TopLevelDefault(p);
    }
  }
}
