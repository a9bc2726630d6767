/**
 * The Makefile the generator writes, as values: the lines of each rule, the
 * dependency lists that writeTarget and genMake thread between rules, and the
 * whole output of genMake up to its first failure.
 *
 * The Makefile text is the concatenation of `line + "\n"` over the lines.
 */
module MakeRules {
  import opened Wrappers
  import opened Text
  import opened Manifest
  import opened ParseVhdl
  import opened ArtifactPaths

  /**
   * writeTarget's `if worklib:` fails (no library, or an empty one): the
   * entry is compiled into the default library and appended to the list of
   * dependencies it was given.
   */
  predicate Chained(e: Entry)
  {
    |e| == 1 || e[1] == ""
  }

  /** The source paths (`i[0]`) of a dependency list, in order. */
  function Sources(deps: seq<Entry>): (r: seq<string>)
    ensures |r| == |deps|
  {
    if deps == [] then [] else Sources(deps[..|deps| - 1]) + [Source(deps[|deps| - 1])]
  }

  /** Position k of the prerequisite list is dependency k's source path. */
  lemma {:induction false} SourcesAt(deps: seq<Entry>, k: nat)
    requires k < |deps|
    ensures Sources(deps)[k] == Source(deps[k])
    decreases |deps|
  {
    if k < |deps| - 1 {
      SourcesAt(deps[..|deps| - 1], k);
    }
  }

  /**
   * A rule's first line: the target, then (Modelsim) the library's `touched`
   * marker, then the source path of every dependency, then the entry's own
   * source path.
   */
  function PrereqLine(b: Backend, e: Entry, target: string, deps: seq<Entry>): string
  {
    target + ": " + (if b == Modelsim then Workdir(b, Lib(e)) + "/touched " else "")
      + Spaced(Sources(deps)) + Source(e)
  }

  /** The recipe: the compiler call, with `-work <lib>` only when the library is non-empty. */
  function RecipeLines(b: Backend, e: Entry): seq<string>
  {
    match b
    case Sonata =>
      [if Chained(e) then "\t$(VHDLC) -vital2000 " + Source(e)
       else "\t$(VHDLC) -vital2000 -work " + e[1] + "  " + Source(e)]
    case Modelsim =>
      ["\tmkdir -p " + Workdir(b, Lib(e)),
       if Chained(e) then "\t$(VHDLC) " + Source(e)
       else "\t$(VHDLC) -work " + e[1] + "  " + Source(e)]
  }

  function RuleLength(b: Backend): nat
  {
    if b == Sonata then 3 else 4
  }

  /** One rule block: a blank line, the prerequisite line, the recipe. */
  function RuleLines(b: Backend, e: Entry, target: string, deps: seq<Entry>): (r: seq<string>)
    ensures |r| == RuleLength(b)
  {
    [""] + [PrereqLine(b, e, target, deps)] + RecipeLines(b, e)
  }

  /** What a failing writeTarget has already written: Modelsim's blank line when only getArch failed. */
  function FailLines(b: Backend, x: Fault): seq<string>
  {
    if b == Modelsim && x.NoArchitecture? then [""] else []
  }

  /**
   * The library writeTarget adds to Modelsim's work directories for entry e
   * with outcome r: the entry's, when it has one and writeTarget got past
   * getEntity.
   */
  function Registered(b: Backend, e: Entry, r: Result<string, Fault>): set<string>
  {
    if b == Modelsim && Lib(e).Some? && (r.Success? || r.error.NoArchitecture?) then {Lib(e).value} else {}
  }

  /** What genMake's hw loop adds to its list for entry e: writeTarget's append of a chained entry, then its own. */
  function Link(e: Entry): seq<Entry>
  {
    if Chained(e) then [e, e] else [e]
  }

  /** What writeTarget appends to the shared default list for entry e. */
  function Default(e: Entry): seq<Entry>
  {
    if Chained(e) then [e] else []
  }

  /**
   * The hw dependency list after the entries `done`: writeTarget appends a
   * chained entry and genMake appends every entry, so a chained entry is
   * listed twice and a library entry once.
   */
  function HwChain(done: seq<Entry>): seq<Entry>
  {
    if done == [] then [] else HwChain(done[..|done| - 1]) + Link(done[|done| - 1])
  }

  /** The chained entries of `done`, in order: what writeTarget appends to the shared default list. */
  function Defaults(done: seq<Entry>): seq<Entry>
  {
    if done == [] then [] else Defaults(done[..|done| - 1]) + Default(done[|done| - 1])
  }

  /**
   * The dependency list the rule for the next entry after `done` receives:
   * the hw chain in the hw phase, and otherwise the shared default list,
   * which held `base` before the phase began.
   */
  function DepsBefore(hwMode: bool, base: seq<Entry>, done: seq<Entry>): seq<Entry>
  {
    if hwMode then HwChain(done) else base + Defaults(done)
  }

  /** What writeTarget writes for entry e: its rule, or what it wrote before it failed. */
  function EntryLines(b: Backend, e: Entry, r: Result<string, Fault>, deps: seq<Entry>): seq<string>
  {
    match r
    case Success(t) => RuleLines(b, e, t, deps)
    case Failure(x) => FailLines(b, x)
  }

  /** A rule genMake wrote: for which entry, naming which target, after which dependency list. */
  datatype Rule = Rule(entry: Entry, target: string, deps: seq<Entry>)

  /** The rule blocks, written one after another. */
  function RulesText(b: Backend, rules: seq<Rule>): seq<string>
  {
    if rules == [] then []
    else
      var r := rules[|rules| - 1];
      RulesText(b, rules[..|rules| - 1]) + RuleLines(b, r.entry, r.target, r.deps)
  }

  /**
   * What one phase (one of genMake's three loops) writes, returns and
   * registers: its rules in order, the targets, the registered libraries and
   * the failure that ended it, if any.
   */
  datatype PhaseOut = PhaseOut(rules: seq<Rule>, targets: seq<string>, libs: set<string>, fault: Option<Fault>)

  /** A phase's lines: its rule blocks, then what the failing entry wrote before it failed. */
  function PhaseLines(b: Backend, p: PhaseOut): seq<string>
  {
    RulesText(b, p.rules) + (if p.fault.Some? then FailLines(b, p.fault.value) else [])
  }

  /** writeTarget's outcome for each entry, in order: its target, or the exception it raises. */
  function Resolutions(b: Backend, fs: map<string, Scan>, es: seq<Entry>): (rs: seq<Result<string, Fault>>)
    ensures |rs| == |es|
  {
    if es == [] then [] else Resolutions(b, fs, es[..|es| - 1]) + [Resolve(b, fs, es[|es| - 1])]
  }

  /** Outcome k is entry k's. */
  lemma {:induction false} ResolutionsAt(b: Backend, fs: map<string, Scan>, es: seq<Entry>, k: nat)
    requires k < |es|
    ensures Resolutions(b, fs, es)[k] == Resolve(b, fs, es[k])
    decreases |es|
  {
    if k < |es| - 1 {
      ResolutionsAt(b, fs, es[..|es| - 1], k);
    }
  }

  /**
   * The phase after the first n entries of `es`, where rs[k] is
   * writeTarget's outcome for es[k]: each entry's rule in order until one
   * fails; the targets of the rules written, and the failure if there is one.
   */
  function Phase(b: Backend, rs: seq<Result<string, Fault>>, es: seq<Entry>, n: nat, hwMode: bool, base: seq<Entry>): (p: PhaseOut)
    requires n <= |es| == |rs|
    ensures |p.rules| == |p.targets| <= n
    ensures p.fault.None? ==> |p.targets| == n
    ensures p.fault.Some? ==> |p.targets| < n
  {
    if n == 0 then PhaseOut([], [], {}, None)
    else Next(b, Phase(b, rs, es, n - 1, hwMode, base), es[n - 1], rs[n - 1], DepsBefore(hwMode, base, es[..n - 1]))
  }

  /**
   * The phase after one more entry e with outcome r, whose rule receives
   * `deps`: unchanged once failed; otherwise e's rule and target, or e's
   * failure, and e's library registered either way.
   */
  function Next(b: Backend, p: PhaseOut, e: Entry, r: Result<string, Fault>, deps: seq<Entry>): PhaseOut
  {
    if p.fault.Some? then p
    else
      match r
      case Success(t) => PhaseOut(p.rules + [Rule(e, t, deps)], p.targets + [t], p.libs + Registered(b, e, r), None)
      case Failure(x) => PhaseOut(p.rules, p.targets, p.libs + Registered(b, e, r), Some(x))
  }

  /** The variable definitions and the `all` rule that open every Makefile. */
  function Header(b: Backend): seq<string>
  {
    match b
    case Sonata => ["VHDLC=vhdlp", "VHDLS=vhdle", "WORKDIR=work.sym", "all: hw comp sim"]
    case Modelsim => ["VHDLC=vcom", "VHDLS=vsim", "WORKDIR=work", "all: hw comp sim"]
  }

  /** An aggregate rule such as `hw: t1 t2 `, each target followed by a space. */
  function Aggregate(name: string, targets: seq<string>): string
  {
    name + ": " + Spaced(targets)
  }

  /**
   * What genMake has written and changed so far: the lines, the libraries it
   * registered, the entries it appended to the shared default list, and the
   * failure that stopped it, if any.
   */
  datatype Outcome = Outcome(lines: seq<string>, libs: set<string>, added: seq<Entry>, fault: Option<Fault>)

  /** The header, before any loop. */
  function Start(b: Backend): Outcome
  {
    Outcome(Header(b), {}, [], None)
  }

  /**
   * One of genMake's loops after the outcome o, unless o has failed: the
   * loop's rules, then a blank line and its aggregate line if no entry
   * failed. The hw loop starts its own list; the comp and sim loops use the
   * shared default list, which held `shared` before genMake and has since
   * gained o.added.
   */
  function Stage(b: Backend, fs: map<string, Scan>, o: Outcome, es: seq<Entry>, name: string, hwMode: bool, shared: seq<Entry>): Outcome
  {
    if o.fault.Some? then o
    else
      var p := Phase(b, Resolutions(b, fs, es), es, |es|, hwMode, if hwMode then [] else shared + o.added);
      var added := if hwMode then [] else Defaults(es[..|p.targets|]);
      var agg := if p.fault.None? then ["", Aggregate(name, p.targets)] else [];
      Outcome(o.lines + PhaseLines(b, p) + agg, o.libs + p.libs, o.added + added, p.fault)
  }

  /**
   * A comp or sim loop followed by its aggregate line, on values: what the
   * loop wrote and changed after the outcome o is the next stage's outcome.
   */
  lemma DefaultStageStep(b: Backend, fs: map<string, Scan>, o: Outcome, es: seq<Entry>, name: string, shared0: seq<Entry>, w0: set<string>,
                         lines1: seq<string>, lines2: seq<string>, wd: set<string>, sh: seq<Entry>, fault: Option<Fault>, tgtstr: string)
    requires o.fault.None?
    requires var p := Phase(b, Resolutions(b, fs, es), es, |es|, false, shared0 + o.added);
      && lines1 == o.lines + PhaseLines(b, p)
      && wd == w0 + o.libs + p.libs
      && fault == p.fault
      && (fault.None? ==> tgtstr == Aggregate(name, p.targets))
      && sh == shared0 + o.added + Defaults(es[..|p.targets|])
    requires lines2 == if fault.None? then lines1 + ["", tgtstr] else lines1
    ensures var o' := Stage(b, fs, o, es, name, false, shared0);
      lines2 == o'.lines && wd == w0 + o'.libs && sh == shared0 + o'.added && fault == o'.fault
  {
    var p := Phase(b, Resolutions(b, fs, es), es, |es|, false, shared0 + o.added);
    Assoc(shared0, o.added, Defaults(es[..|p.targets|]));
  }

  /** genMake up to its final rules: the header, then the hw, comp and sim loops, up to the first failure. */
  function Generation(b: Backend, fs: map<string, Scan>, hw: seq<Entry>, comp: seq<Entry>, sim: seq<Entry>, shared: seq<Entry>): Outcome
  {
    var h := Stage(b, fs, Start(b), hw, "hw", true, shared);
    var c := Stage(b, fs, h, comp, "comp", false, shared);
    Stage(b, fs, c, sim, "sim", false, shared)
  }

  /** `order` lists the set W, each element once: one iteration order of a Python set. */
  ghost predicate Enumerates(order: seq<string>, W: set<string>)
  {
    && (forall i, j :: 0 <= i < j < |order| ==> order[i] != order[j])
    && (forall w :: w in W <==> w in order)
  }

  /** Modelsim's bootstrap rule for each work directory, in `order`. */
  function TouchedRules(order: seq<string>): (r: seq<string>)
    ensures |r| == 3 * |order|
  {
    if order == [] then []
    else
      var w := order[|order| - 1];
      TouchedRules(order[..|order| - 1]) + [w + "/touched:", "\tvlib  " + w, "\ttouch  " + w + "/touched"]
  }

  /** The rules genMake writes after the three phases: runsim, clean and (Modelsim) the bootstrap rules. */
  function Trailer(b: Backend, toplevel: string, order: seq<string>): seq<string>
  {
    ["runsim: all", "\t$(VHDLS) " + toplevel, "", "", "clean:"] +
    match b
    case Sonata => ["\trm -Rf *.sym", ""]
    case Modelsim => ["\trm -Rf " + Spaced(order), ""] + TouchedRules(order)
  }

  // ---------------------------------------------------------------------
  // Properties of the phases

  /** A phase that has failed stays failed: nothing after the failing entry is written. */
  lemma {:induction false} PhaseStops(b: Backend, rs: seq<Result<string, Fault>>, es: seq<Entry>, hwMode: bool, base: seq<Entry>, m: nat, n: nat)
    requires m <= n <= |es| == |rs| && Phase(b, rs, es, m, hwMode, base).fault.Some?
    ensures Phase(b, rs, es, n, hwMode, base) == Phase(b, rs, es, m, hwMode, base)
    decreases n
  {
    if m < n {
      PhaseStops(b, rs, es, hwMode, base, m, n - 1);
    }
  }

  /**
   * One turn of a genMake loop, as the loop sees it: what writeTarget writes
   * for entry i extends the phase's lines.
   */
  lemma PhaseLoopLines(b: Backend, rs: seq<Result<string, Fault>>, es: seq<Entry>, hwMode: bool, base: seq<Entry>, i: nat, start: seq<string>)
    requires i < |es| == |rs| && Phase(b, rs, es, i, hwMode, base).fault.None?
    ensures var p := Phase(b, rs, es, i, hwMode, base);
      var q := Phase(b, rs, es, i + 1, hwMode, base);
      start + PhaseLines(b, p) + EntryLines(b, es[i], rs[i], DepsBefore(hwMode, base, es[..i])) == start + PhaseLines(b, q)
  {
    NextLines(b, Phase(b, rs, es, i, hwMode, base), es[i], rs[i], DepsBefore(hwMode, base, es[..i]), start);
  }

  /** What a step writes: the entry's rule block, or what writeTarget wrote before failing. */
  lemma NextLines(b: Backend, p: PhaseOut, e: Entry, r: Result<string, Fault>, deps: seq<Entry>, start: seq<string>)
    requires p.fault.None?
    ensures start + PhaseLines(b, p) + EntryLines(b, e, r, deps) == start + PhaseLines(b, Next(b, p, e, r, deps))
  {
    var q := Next(b, p, e, r, deps);
    assert PhaseLines(b, p) == RulesText(b, p.rules);
    match r
    case Success(t) =>
      var rule := Rule(e, t, deps);
      assert q.rules == p.rules + [rule] && q.fault.None?;
      RulesSnoc(b, p.rules, rule);
      Assoc(start, RulesText(b, p.rules), RuleLines(b, e, t, deps));
    case Failure(x) =>
      assert q.rules == p.rules && q.fault == Some(x);
      Assoc(start, RulesText(b, p.rules), FailLines(b, x));
  }

  lemma Assoc<T>(a: seq<T>, b: seq<T>, c: seq<T>)
    ensures a + b + c == a + (b + c)
  {
  }

  /**
   * One turn of a genMake loop, as the loop sees it: the entry's library is
   * registered, and its target extends the aggregate line, or its failure
   * ends the phase.
   */
  lemma PhaseLoopTargets(b: Backend, rs: seq<Result<string, Fault>>, es: seq<Entry>, hwMode: bool, base: seq<Entry>, i: nat, name: string)
    requires i < |es| == |rs| && Phase(b, rs, es, i, hwMode, base).fault.None?
    ensures var p := Phase(b, rs, es, i, hwMode, base);
      var q := Phase(b, rs, es, i + 1, hwMode, base);
      var r := rs[i];
      && q.libs == p.libs + Registered(b, es[i], r)
      && q.fault == (if r.Success? then None else Some(r.error))
      && (r.Success? ==> Aggregate(name, p.targets) + (r.value + " ") == Aggregate(name, q.targets))
      && (r.Failure? ==> |q.targets| == i)
  {
    NextTargets(b, Phase(b, rs, es, i, hwMode, base), es[i], rs[i], DepsBefore(hwMode, base, es[..i]), name);
  }

  /** What a step records: the library, the failure, and the target on the aggregate line. */
  lemma NextTargets(b: Backend, p: PhaseOut, e: Entry, r: Result<string, Fault>, deps: seq<Entry>, name: string)
    requires p.fault.None?
    ensures var q := Next(b, p, e, r, deps);
      && q.libs == p.libs + Registered(b, e, r)
      && q.fault == (if r.Success? then None else Some(r.error))
      && (r.Success? ==> Aggregate(name, p.targets) + (r.value + " ") == Aggregate(name, q.targets))
      && (r.Failure? ==> q.targets == p.targets)
  {
    if r.Success? {
      SpacedSnoc(p.targets, r.value);
    }
  }

  lemma RulesSnoc(b: Backend, rules: seq<Rule>, r: Rule)
    ensures RulesText(b, rules + [r]) == RulesText(b, rules) + RuleLines(b, r.entry, r.target, r.deps)
  {
    assert (rules + [r])[..|rules|] == rules;
  }

  lemma SpacedSnoc(ws: seq<string>, w: string)
    ensures Spaced(ws + [w]) == Spaced(ws) + (w + " ")
  {
    assert (ws + [w])[..|ws|] == ws;
  }

  /** The hw list and the shared default list after one more entry. */
  lemma ChainSnoc(es: seq<Entry>, i: nat, base: seq<Entry>)
    requires i < |es|
    ensures HwChain(es[..i]) + Link(es[i]) == HwChain(es[..i + 1])
    ensures base + Defaults(es[..i]) + Default(es[i]) == base + Defaults(es[..i + 1])
  {
    assert es[..i + 1][..i] == es[..i];
  }

  /**
   * One turn of the hw loop, on values: from the loop's state before entry i
   * and what writeTarget did for it, the loop's state after entry i or, if
   * entry i failed, the phase's end.
   */
  lemma HwStep(b: Backend, rs: seq<Result<string, Fault>>, es: seq<Entry>, i: nat,
               start: seq<string>, w0: set<string>, lines0: seq<string>, lines1: seq<string>, wd0: set<string>, wd1: set<string>,
               tgt0: string, tgt1: string, deps0: seq<Entry>, deps1: seq<Entry>, res: Result<string, Fault>)
    requires i < |es| == |rs| && res == rs[i]
    requires var ph := Phase(b, rs, es, i, true, []);
      && ph.fault.None? && lines0 == start + PhaseLines(b, ph) && wd0 == w0 + ph.libs
      && tgt0 == Aggregate("hw", ph.targets) && deps0 == HwChain(es[..i])
    requires lines1 == lines0 + EntryLines(b, es[i], res, deps0)
    requires wd1 == wd0 + Registered(b, es[i], res)
    requires res.Success? ==> tgt1 == tgt0 + (res.value + " ") && deps1 == deps0 + Link(es[i])
    ensures res.Success? ==> var q := Phase(b, rs, es, i + 1, true, []);
      && q.fault.None? && lines1 == start + PhaseLines(b, q) && wd1 == w0 + q.libs
      && tgt1 == Aggregate("hw", q.targets) && deps1 == HwChain(es[..i + 1])
    ensures res.Failure? ==> var p := Phase(b, rs, es, |es|, true, []);
      && lines1 == start + PhaseLines(b, p) && wd1 == w0 + p.libs && p.fault == Some(res.error)
  {
    assert DepsBefore(true, [], es[..i]) == deps0;
    if res.Success? {
      StepSucceeds(b, rs, es, true, [], i, start, w0, lines0, lines1, wd0, wd1);
      PhaseLoopTargets(b, rs, es, true, [], i, "hw");
      ChainSnoc(es, i, []);
    } else {
      StepFails(b, rs, es, true, [], i, start, w0, lines0, lines1, wd0, wd1);
    }
  }

  /**
   * One turn of a comp or sim loop, on values: from the loop's state before
   * entry i and what writeTarget did for it, the loop's state after entry i
   * or, if entry i failed, the phase's end.
   */
  lemma DefaultStep(b: Backend, rs: seq<Result<string, Fault>>, es: seq<Entry>, i: nat, base: seq<Entry>, name: string,
                    start: seq<string>, w0: set<string>, lines0: seq<string>, lines1: seq<string>, wd0: set<string>, wd1: set<string>,
                    tgt0: string, tgt1: string, shared0: seq<Entry>, shared1: seq<Entry>, res: Result<string, Fault>)
    requires i < |es| == |rs| && res == rs[i]
    requires var ph := Phase(b, rs, es, i, false, base);
      && ph.fault.None? && lines0 == start + PhaseLines(b, ph) && wd0 == w0 + ph.libs
      && tgt0 == Aggregate(name, ph.targets) && shared0 == base + Defaults(es[..i])
    requires lines1 == lines0 + EntryLines(b, es[i], res, shared0)
    requires wd1 == wd0 + Registered(b, es[i], res)
    requires res.Success? ==> tgt1 == tgt0 + (res.value + " ")
    requires shared1 == if res.Success? then shared0 + Default(es[i]) else shared0
    ensures res.Success? ==> var q := Phase(b, rs, es, i + 1, false, base);
      && q.fault.None? && lines1 == start + PhaseLines(b, q) && wd1 == w0 + q.libs
      && tgt1 == Aggregate(name, q.targets) && shared1 == base + Defaults(es[..i + 1])
    ensures res.Failure? ==> var p := Phase(b, rs, es, |es|, false, base);
      && lines1 == start + PhaseLines(b, p) && wd1 == w0 + p.libs && p.fault == Some(res.error)
      && shared1 == base + Defaults(es[..|p.targets|])
  {
    assert DepsBefore(false, base, es[..i]) == shared0;
    if res.Success? {
      StepSucceeds(b, rs, es, false, base, i, start, w0, lines0, lines1, wd0, wd1);
      PhaseLoopTargets(b, rs, es, false, base, i, name);
      ChainSnoc(es, i, base);
    } else {
      StepFails(b, rs, es, false, base, i, start, w0, lines0, lines1, wd0, wd1);
    }
  }

  /** A loop turn whose entry resolves: the loop's lines and libraries are those of one more step. */
  lemma StepSucceeds(b: Backend, rs: seq<Result<string, Fault>>, es: seq<Entry>, hwMode: bool, base: seq<Entry>, i: nat,
                     start: seq<string>, w0: set<string>, lines0: seq<string>, lines1: seq<string>, wd0: set<string>, wd1: set<string>)
    requires i < |es| == |rs| && rs[i].Success?
    requires var ph := Phase(b, rs, es, i, hwMode, base);
      ph.fault.None? && lines0 == start + PhaseLines(b, ph) && wd0 == w0 + ph.libs
    requires lines1 == lines0 + EntryLines(b, es[i], rs[i], DepsBefore(hwMode, base, es[..i]))
    requires wd1 == wd0 + Registered(b, es[i], rs[i])
    ensures var q := Phase(b, rs, es, i + 1, hwMode, base);
      q.fault.None? && lines1 == start + PhaseLines(b, q) && wd1 == w0 + q.libs
  {
    PhaseLoopLines(b, rs, es, hwMode, base, i, start);
    PhaseLoopTargets(b, rs, es, hwMode, base, i, "");
  }

  /** A loop turn whose entry fails: the loop's lines and libraries are the phase's final ones. */
  lemma StepFails(b: Backend, rs: seq<Result<string, Fault>>, es: seq<Entry>, hwMode: bool, base: seq<Entry>, i: nat,
                  start: seq<string>, w0: set<string>, lines0: seq<string>, lines1: seq<string>, wd0: set<string>, wd1: set<string>)
    requires i < |es| == |rs| && rs[i].Failure?
    requires var ph := Phase(b, rs, es, i, hwMode, base);
      ph.fault.None? && lines0 == start + PhaseLines(b, ph) && wd0 == w0 + ph.libs
    requires lines1 == lines0 + EntryLines(b, es[i], rs[i], DepsBefore(hwMode, base, es[..i]))
    requires wd1 == wd0 + Registered(b, es[i], rs[i])
    ensures var p := Phase(b, rs, es, |es|, hwMode, base);
      && lines1 == start + PhaseLines(b, p) && wd1 == w0 + p.libs
      && p.fault == Some(rs[i].error) && |p.targets| == i
  {
    var ph := Phase(b, rs, es, i, hwMode, base);
    PhaseHalt(b, rs, es, hwMode, base, i);
    Assoc(start, PhaseLines(b, ph), FailLines(b, rs[i].error));
  }

  /** An entry that fails ends the phase: what it wrote, its library and its error are the phase's last. */
  lemma PhaseHalt(b: Backend, rs: seq<Result<string, Fault>>, es: seq<Entry>, hwMode: bool, base: seq<Entry>, i: nat)
    requires i < |es| == |rs| && Phase(b, rs, es, i, hwMode, base).fault.None? && rs[i].Failure?
    ensures var p := Phase(b, rs, es, i, hwMode, base);
      var q := Phase(b, rs, es, |es|, hwMode, base);
      && PhaseLines(b, q) == PhaseLines(b, p) + FailLines(b, rs[i].error)
      && q.libs == p.libs + Registered(b, es[i], rs[i])
      && q.fault == Some(rs[i].error)
      && |q.targets| == i
  {
    PhaseFailStep(b, rs, es, hwMode, base, i);
    PhaseStops(b, rs, es, hwMode, base, i + 1, |es|);
  }

  /** The step on a failing entry keeps the rules and targets and records the failure. */
  lemma PhaseFailStep(b: Backend, rs: seq<Result<string, Fault>>, es: seq<Entry>, hwMode: bool, base: seq<Entry>, i: nat)
    requires i < |es| == |rs| && Phase(b, rs, es, i, hwMode, base).fault.None? && rs[i].Failure?
    ensures var p := Phase(b, rs, es, i, hwMode, base);
      var q := Phase(b, rs, es, i + 1, hwMode, base);
      && PhaseLines(b, q) == PhaseLines(b, p) + FailLines(b, rs[i].error)
      && q.libs == p.libs + Registered(b, es[i], rs[i])
      && q.fault == Some(rs[i].error)
      && |q.targets| == i
  {
    var p := Phase(b, rs, es, i, hwMode, base);
    var q := Phase(b, rs, es, i + 1, hwMode, base);
    assert q.rules == p.rules;
    assert PhaseLines(b, p) == RulesText(b, p.rules);
  }

  /** Sonata registers no work directory in any loop. */
  lemma SonataStage(fs: map<string, Scan>, o: Outcome, es: seq<Entry>, name: string, hwMode: bool, shared: seq<Entry>)
    requires o.libs == {}
    ensures Stage(Sonata, fs, o, es, name, hwMode, shared).libs == {}
  {
    if o.fault.None? {
      SonataRegistersNothing(Resolutions(Sonata, fs, es), es, |es|, hwMode, if hwMode then [] else shared + o.added);
    }
  }

  /** Sonata registers no work directory in all of genMake. */
  lemma SonataGeneration(fs: map<string, Scan>, hw: seq<Entry>, comp: seq<Entry>, sim: seq<Entry>, shared: seq<Entry>)
    ensures Generation(Sonata, fs, hw, comp, sim, shared).libs == {}
  {
    var h := Stage(Sonata, fs, Start(Sonata), hw, "hw", true, shared);
    var c := Stage(Sonata, fs, h, comp, "comp", false, shared);
    SonataStage(fs, Start(Sonata), hw, "hw", true, shared);
    SonataStage(fs, h, comp, "comp", false, shared);
    SonataStage(fs, c, sim, "sim", false, shared);
  }

  /** Sonata keeps no work directories. */
  lemma {:induction false} SonataRegistersNothing(rs: seq<Result<string, Fault>>, es: seq<Entry>, n: nat, hwMode: bool, base: seq<Entry>)
    requires n <= |es| == |rs|
    ensures Phase(Sonata, rs, es, n, hwMode, base).libs == {}
    decreases n
  {
    if n > 0 {
      SonataRegistersNothing(rs, es, n - 1, hwMode, base);
    }
  }

  /**
   * In a phase that succeeds, rule block k names target k, which is entry
   * k's artifact, and receives the dependency list built from the entries
   * before it.
   */
  lemma {:induction false} PhaseRuleAt(b: Backend, rs: seq<Result<string, Fault>>, es: seq<Entry>, n: nat, hwMode: bool, base: seq<Entry>, k: nat)
    requires k < n <= |es| == |rs|
    requires Phase(b, rs, es, n, hwMode, base).fault.None?
    ensures var p := Phase(b, rs, es, n, hwMode, base);
      && rs[k] == Success(p.targets[k])
      && p.rules[k] == Rule(es[k], p.targets[k], DepsBefore(hwMode, base, es[..k]))
    decreases n
  {
    NextSucceeds(b, Phase(b, rs, es, n - 1, hwMode, base), es[n - 1], rs[n - 1], DepsBefore(hwMode, base, es[..n - 1]));
    if k < n - 1 {
      PhaseRuleAt(b, rs, es, n - 1, hwMode, base, k);
    }
  }

  /** A step that leaves the phase unfailed follows an unfailed phase and adds the entry's target and rule. */
  lemma NextSucceeds(b: Backend, p: PhaseOut, e: Entry, r: Result<string, Fault>, deps: seq<Entry>)
    requires Next(b, p, e, r, deps).fault.None?
    ensures var q := Next(b, p, e, r, deps);
      && p.fault.None? && r.Success?
      && q.targets == p.targets + [r.value]
      && q.rules == p.rules + [Rule(e, r.value, deps)]
  {
  }

  /** A failed phase failed on entry |targets|, with that entry's own error, and every earlier entry resolved. */
  lemma {:induction false} PhaseFirstFault(b: Backend, rs: seq<Result<string, Fault>>, es: seq<Entry>, n: nat, hwMode: bool, base: seq<Entry>)
    requires n <= |es| == |rs| && Phase(b, rs, es, n, hwMode, base).fault.Some?
    ensures var p := Phase(b, rs, es, n, hwMode, base);
      && rs[|p.targets|] == Failure(p.fault.value)
      && forall j :: 0 <= j < |p.targets| ==> rs[j] == Success(p.targets[j])
    decreases n
  {
    var q := Phase(b, rs, es, n - 1, hwMode, base);
    if q.fault.Some? {
      PhaseFirstFault(b, rs, es, n - 1, hwMode, base);
    } else {
      forall j | 0 <= j < |q.targets|
        ensures rs[j] == Success(q.targets[j])
      {
        PhaseRuleAt(b, rs, es, n - 1, hwMode, base, j);
      }
    }
  }

  // ---------------------------------------------------------------------
  // Properties of the dependency lists

  /**
   * The hw chain holds every earlier entry, a chained one twice and a library
   * one once: as multisets, the entries plus the chained entries.
   */
  lemma {:induction false} HwChainCounts(done: seq<Entry>)
    ensures multiset(HwChain(done)) == multiset(done) + multiset(Defaults(done))
    decreases |done|
  {
    if done != [] {
      var p := done[..|done| - 1];
      var e := done[|done| - 1];
      HwChainCounts(p);
      assert done == p + [e];
      assert multiset(done) == multiset(p) + multiset{e};
      assert multiset(HwChain(done)) == multiset(HwChain(p)) + multiset(Link(e));
      assert multiset(Defaults(done)) == multiset(Defaults(p)) + multiset(Default(e));
    }
  }

  /**
   * With default-library entries only, the chain is each earlier entry twice,
   * in manifest order: the rule for C after A and B lists A A B B.
   */
  lemma {:induction false} HwChainAllChained(done: seq<Entry>)
    requires forall j :: 0 <= j < |done| ==> Chained(done[j])
    ensures |HwChain(done)| == 2 * |done|
    ensures forall j :: 0 <= j < |done| ==> HwChain(done)[2 * j] == done[j] && HwChain(done)[2 * j + 1] == done[j]
    decreases |done|
  {
    if done != [] {
      var p := done[..|done| - 1];
      HwChainAllChained(p);
    }
  }

  /** The chain after `done` lists exactly the entries of done (and no others). */
  lemma HwChainMembers(done: seq<Entry>)
    ensures forall x :: x in HwChain(done) <==> x in done
  {
    HwChainCounts(done);
    forall x ensures x in HwChain(done) <==> x in done {
      assert x in HwChain(done) <==> x in multiset(HwChain(done));
      assert x in done <==> x in multiset(done);
      DefaultsMembers(done);
    }
  }

  /** The shared list gains exactly the chained entries: library entries are never appended. */
  lemma {:induction false} DefaultsMembers(done: seq<Entry>)
    ensures forall x :: x in Defaults(done) <==> x in done && Chained(x)
    decreases |done|
  {
    if done != [] {
      var p := done[..|done| - 1];
      DefaultsMembers(p);
      assert done == p + [done[|done| - 1]];
    }
  }

  /**
   * In the comp and sim phases the rule for entry k lists the shared list as
   * it stood before the phase, then each earlier chained entry of the phase;
   * an entry with an explicit library is listed only if it was already there.
   */
  lemma SharedRuleDeps(base: seq<Entry>, es: seq<Entry>, k: nat, x: Entry)
    requires k <= |es|
    ensures x in DepsBefore(false, base, es[..k]) <==> x in base || (x in es[..k] && Chained(x))
  {
    DefaultsMembers(es[..k]);
  }

  // ---------------------------------------------------------------------
  // Properties of the Modelsim work directories

  /** The libraries the entries name. */
  function NamedLibs(es: seq<Entry>): set<string>
  {
    if es == [] then {}
    else
      var e := es[|es| - 1];
      NamedLibs(es[..|es| - 1]) + (if Lib(e).Some? then {Lib(e).value} else {})
  }

  /** Every library an entry names is among the named libraries. */
  lemma {:induction false} NamedLibsHas(es: seq<Entry>, k: nat)
    requires k < |es| && Lib(es[k]).Some?
    ensures Lib(es[k]).value in NamedLibs(es)
    decreases |es|
  {
    if k < |es| - 1 {
      NamedLibsHas(es[..|es| - 1], k);
    }
  }

  /**
   * A phase that succeeds registers every library its entries name (Modelsim)
   * and nothing else; Sonata registers nothing.
   */
  lemma {:induction false} PhaseLibs(b: Backend, rs: seq<Result<string, Fault>>, es: seq<Entry>, n: nat, hwMode: bool, base: seq<Entry>)
    requires n <= |es| == |rs| && Phase(b, rs, es, n, hwMode, base).fault.None?
    ensures Phase(b, rs, es, n, hwMode, base).libs == if b == Modelsim then NamedLibs(es[..n]) else {}
    decreases n
  {
    if n > 0 {
      PhaseLibsStep(b, rs, es, n, hwMode, base);
      PhaseLibs(b, rs, es, n - 1, hwMode, base);
      NamedLibsSnoc(es, n);
    }
  }

  lemma NamedLibsSnoc(es: seq<Entry>, n: nat)
    requires 0 < n <= |es|
    ensures NamedLibs(es[..n]) == NamedLibs(es[..n - 1]) + (if Lib(es[n - 1]).Some? then {Lib(es[n - 1]).value} else {})
  {
    assert es[..n][..n - 1] == es[..n - 1];
  }

  /** The step before a phase that succeeds succeeded too, and the last entry registered its library. */
  lemma PhaseLibsStep(b: Backend, rs: seq<Result<string, Fault>>, es: seq<Entry>, n: nat, hwMode: bool, base: seq<Entry>)
    requires 0 < n <= |es| == |rs| && Phase(b, rs, es, n, hwMode, base).fault.None?
    ensures Phase(b, rs, es, n - 1, hwMode, base).fault.None? && rs[n - 1].Success?
    ensures Phase(b, rs, es, n, hwMode, base).libs == Phase(b, rs, es, n - 1, hwMode, base).libs + Registered(b, es[n - 1], rs[n - 1])
  {
    var p := Phase(b, rs, es, n - 1, hwMode, base);
    var deps := DepsBefore(hwMode, base, es[..n - 1]);
    NextSucceeds(b, p, es[n - 1], rs[n - 1], deps);
    NextTargets(b, p, es[n - 1], rs[n - 1], deps, "");
  }

  /** The default directory `$(WORKDIR)` is the Makefile variable WORKDIR, `work` for Modelsim. */
  function Expand(workdir: string): string
  {
    if workdir == DefaultWorkdir then "work" else workdir
  }

  /**
   * Every Modelsim rule of a successful phase depends on `<workdir>/touched`,
   * and that directory, once WORKDIR is expanded, is one the bootstrap rules
   * create, given the work directories start with `work`.
   */
  lemma TouchedPrereqHasRule(rs: seq<Result<string, Fault>>, es: seq<Entry>, hwMode: bool, base: seq<Entry>, W: set<string>, k: nat)
    requires k < |es| == |rs| && "work" in W
    requires Phase(Modelsim, rs, es, |es|, hwMode, base).fault.None?
    ensures Expand(Workdir(Modelsim, Lib(es[k]))) in W + Phase(Modelsim, rs, es, |es|, hwMode, base).libs
  {
    PhaseLibs(Modelsim, rs, es, |es|, hwMode, base);
    assert es[..|es|] == es;
    if Lib(es[k]).Some? {
      NamedLibsHas(es, k);
    }
  }

  function TouchedHeads(order: seq<string>): (r: seq<string>)
    ensures |r| == |order|
  {
    seq(|order|, i requires 0 <= i < |order| => order[i] + "/touched:")
  }

  lemma {:induction false} TouchedRulesAt(order: seq<string>, i: nat)
    requires i < |order|
    ensures TouchedRules(order)[3 * i] == order[i] + "/touched:"
    ensures TouchedRules(order)[3 * i + 1] == "\tvlib  " + order[i]
    ensures TouchedRules(order)[3 * i + 2] == "\ttouch  " + order[i] + "/touched"
    decreases |order|
  {
    if i < |order| - 1 {
      TouchedRulesAt(order[..|order| - 1], i);
    }
  }

  /**
   * Each work directory gets exactly one bootstrap rule: among the rule heads
   * `<w>/touched:`, each directory's appears once, and no other appears.
   */
  lemma OneTouchedRulePerWorkdir(order: seq<string>, W: set<string>, w: string)
    requires Enumerates(order, W)
    ensures forall i :: 0 <= i < |order| ==> TouchedRules(order)[3 * i] == TouchedHeads(order)[i]
    ensures multiset(TouchedHeads(order))[w + "/touched:"] == if w in W then 1 else 0
  {
    forall i | 0 <= i < |order| ensures TouchedRules(order)[3 * i] == TouchedHeads(order)[i] {
      TouchedRulesAt(order, i);
    }
    HeadCount(order, w);
  }

  lemma {:induction false} HeadCount(order: seq<string>, w: string)
    requires forall i, j :: 0 <= i < j < |order| ==> order[i] != order[j]
    ensures multiset(TouchedHeads(order))[w + "/touched:"] == if w in order then 1 else 0
    decreases |order|
  {
    if order != [] {
      var p := order[..|order| - 1];
      var v := order[|order| - 1];
      HeadCount(p, w);
      assert TouchedHeads(order) == TouchedHeads(p) + [v + "/touched:"];
      assert v + "/touched:" == w + "/touched:" <==> v == w by {
        if v + "/touched:" == w + "/touched:" {
          assert v == (v + "/touched:")[..|v|];
          assert w == (w + "/touched:")[..|w|];
        }
      }
      assert w in order <==> w in p || w == v;
      assert v !in p;
    }
  }
}
