/**
 * The Makefile generator object (the Sonata and Modelsim classes of
 * genSimMakefile.py, one class here, told apart by its backend).
 *
 * `lines` is the Makefile as written so far, one string per line.
 * `shared` is writeTarget's default dependency list: Python evaluates the
 * default `deplist=[]` once, so every comp and sim rule appends to, and reads,
 * the same list, across calls. `workdirs` is Modelsim's registry of library
 * directories; Sonata keeps none.
 */
module MakefileGen {
  import opened Wrappers
  import opened Text
  import opened Manifest
  import opened ParseVhdl
  import opened ArtifactPaths
  import opened MakeRules

  class Generator {
    const backend: Backend
    var lines: seq<string>
    var shared: seq<Entry>
    var workdirs: set<string>

    ghost predicate Valid()
      reads this
    {
      && (backend == Modelsim ==> "work" in workdirs)
      && (backend == Sonata ==> workdirs == {})
    }

    /** Modelsim starts its registry with the default library `work`. */
    constructor (b: Backend)
      ensures Valid()
      ensures backend == b && lines == [] && shared == []
      ensures workdirs == if b == Modelsim then {"work"} else {}
    {
      backend := b;
      lines := [];
      shared := [];
      workdirs := if b == Modelsim then {"work"} else {};
    }

    /**
     * writeTarget: writes the rule for entry e with the dependency list
     * `deplist` and returns its target, or fails; a default-library entry is
     * appended to the list it was given (returned as `deplist'`).
     */
    method WriteTarget(fs: map<string, Scan>, e: Entry, deplist: seq<Entry>) returns (res: Result<string, Fault>, deplist': seq<Entry>)
      modifies this`lines, this`workdirs
      ensures res == Resolve(backend, fs, e)
      ensures res.Success? ==> lines == old(lines) + RuleLines(backend, e, res.value, deplist)
      ensures res.Failure? ==> lines == old(lines) + FailLines(backend, res.error)
      ensures workdirs == old(workdirs) + Registered(backend, e, res)
      ensures deplist' == if res.Success? && Chained(e) then deplist + [e] else deplist
    {
      if backend == Sonata {
        res, deplist' := WriteSonataTarget(fs, e, deplist);
      } else {
        res, deplist' := WriteModelsimTarget(fs, e, deplist);
      }
    }

    /** The prerequisite list as the loop over deplist writes it: each source path and a space. */
    method WriteSources(deplist: seq<Entry>, prefix: string) returns (s: string)
      ensures s == prefix + Spaced(Sources(deplist))
    {
      s := prefix;
      for i := 0 to |deplist|
        invariant s == prefix + Spaced(Sources(deplist[..i]))
      {
        assert deplist[..i + 1][..i] == deplist[..i];
        s := s + (Source(deplist[i]) + " ");
      }
      assert deplist[..|deplist|] == deplist;
    }

    /** Sonata.writeTarget. */
    method WriteSonataTarget(fs: map<string, Scan>, e: Entry, deplist: seq<Entry>) returns (res: Result<string, Fault>, deplist': seq<Entry>)
      requires backend == Sonata
      modifies this`lines
      ensures res == Resolve(backend, fs, e)
      ensures res.Success? ==> lines == old(lines) + RuleLines(backend, e, res.value, deplist)
      ensures res.Failure? ==> lines == old(lines)
      ensures deplist' == if res.Success? && Chained(e) then deplist + [e] else deplist
    {
      deplist' := deplist;
      var filename := Source(e);
      if filename !in fs {
        return Failure(Unreadable(filename)), deplist';
      }
      var unit := DetectUnit(filename, fs[filename]);
      if unit.Failure? {
        return Failure(unit.error), deplist';
      }
      res, deplist' := WriteSonataUnit(fs, e, unit.value, deplist);
    }

    /**
     * Sonata.writeTarget from the first write on, once the file is known to
     * hold `unit`: the blank line, then the rule.
     */
    method WriteSonataUnit(fs: map<string, Scan>, e: Entry, unit: Unit, deplist: seq<Entry>) returns (res: Result<string, Fault>, deplist': seq<Entry>)
      requires backend == Sonata && Source(e) in fs
      requires DetectUnit(Source(e), fs[Source(e)]) == Success(unit)
      modifies this`lines
      ensures res == Resolve(backend, fs, e) && res.Success?
      ensures lines == old(lines) + RuleLines(backend, e, res.value, deplist)
      ensures deplist' == if Chained(e) then deplist + [e] else deplist
    {
      var filename := Source(e);
      var fpre := FilePrefix(filename);
      ghost var lines0 := lines;
      lines := lines + [""];
      var workdir := Workdir(Sonata, Lib(e));
      var target := match unit
        case PackageUnit(_) => workdir + "/" + fpre + "/" + "prim.var"
        case ArchitectureUnit(a) => workdir + "/" + fpre + "/" + ("_" + Lower(a) + ".var");
      assert target == SonataTarget(filename, Lib(e), unit);
      assert Resolve(backend, fs, e) == Success(target);
      deplist' := WriteSonataRule(e, target, deplist);
      Assoc(lines0, [""], [PrereqLine(Sonata, e, target, deplist)] + RecipeLines(Sonata, e));
      res := Success(target);
    }

    /** The rest of Sonata.writeTarget once the target is known: the prerequisite line and the recipe. */
    method WriteSonataRule(e: Entry, target: string, deplist: seq<Entry>) returns (deplist': seq<Entry>)
      modifies this`lines
      ensures lines == old(lines) + ([PrereqLine(Sonata, e, target, deplist)] + RecipeLines(Sonata, e))
      ensures deplist' == if Chained(e) then deplist + [e] else deplist
    {
      var filename := Source(e);
      var prereq := WriteSources(deplist, target + ": ");
      assert prereq + filename == PrereqLine(Sonata, e, target, deplist) by {
        assert target + ": " + "" == target + ": ";
      }
      ghost var lines0 := lines;
      lines := lines + [prereq + filename];
      if !Chained(e) {
        lines := lines + ["\t$(VHDLC) -vital2000 -work " + e[1] + "  " + filename];
        deplist' := deplist;
      } else {
        lines := lines + ["\t$(VHDLC) -vital2000 " + filename];
        deplist' := deplist + [e];
      }
      Assoc(lines0, [prereq + filename], RecipeLines(Sonata, e));
    }

    /** Modelsim.writeTarget: registers the entry's library once past getEntity. */
    method WriteModelsimTarget(fs: map<string, Scan>, e: Entry, deplist: seq<Entry>) returns (res: Result<string, Fault>, deplist': seq<Entry>)
      requires backend == Modelsim
      modifies this`lines, this`workdirs
      ensures res == Resolve(backend, fs, e)
      ensures res.Success? ==> lines == old(lines) + RuleLines(backend, e, res.value, deplist)
      ensures res.Failure? ==> lines == old(lines) + FailLines(backend, res.error)
      ensures workdirs == old(workdirs) + Registered(backend, e, res)
      ensures deplist' == if res.Success? && Chained(e) then deplist + [e] else deplist
    {
      deplist' := deplist;
      var filename := Source(e);
      if filename !in fs {
        return Failure(Unreadable(filename)), deplist';
      }
      var scan := fs[filename];
      var unit := DetectUnit(filename, scan);
      if unit.Failure? {
        return Failure(unit.error), deplist';
      }
      var isPackage := unit.value.PackageUnit?;
      var fpre: string;
      if isPackage {
        fpre := FilePrefix(filename);
      } else {
        var entity := GetEntity(filename, scan);
        if entity.Failure? {
          return Failure(entity.error), deplist';
        }
        fpre := entity.value;
      }
      res, deplist' := WriteModelsimUnit(fs, e, isPackage, fpre, deplist);
    }

    /**
     * Modelsim.writeTarget from the first write on, once the file is known
     * to hold a package or an architecture of entity `fpre`: the blank line,
     * the library registration, getArch, then the rule.
     */
    method WriteModelsimUnit(fs: map<string, Scan>, e: Entry, isPackage: bool, fpre: string, deplist: seq<Entry>)
      returns (res: Result<string, Fault>, deplist': seq<Entry>)
      requires backend == Modelsim && Source(e) in fs
      requires DetectUnit(Source(e), fs[Source(e)]).Success?
      requires isPackage <==> DetectUnit(Source(e), fs[Source(e)]).value.PackageUnit?
      requires isPackage ==> fpre == FilePrefix(Source(e))
      requires !isPackage ==> GetEntity(Source(e), fs[Source(e)]) == Success(fpre)
      modifies this`lines, this`workdirs
      ensures res == Resolve(backend, fs, e)
      ensures res.Success? ==> lines == old(lines) + RuleLines(backend, e, res.value, deplist)
      ensures res.Failure? ==> lines == old(lines) + FailLines(backend, res.error)
      ensures workdirs == old(workdirs) + Registered(backend, e, res)
      ensures deplist' == if res.Success? && Chained(e) then deplist + [e] else deplist
    {
      deplist' := deplist;
      var filename := Source(e);
      ghost var lines0 := lines;
      lines := lines + [""];
      var workdir: string;
      match Lib(e) {
        case None =>
          workdir := DefaultWorkdir;
        case Some(lib) =>
          workdirs := workdirs + {lib};
          workdir := lib;
      }
      assert workdir == Workdir(Modelsim, Lib(e));
      var target: string;
      if isPackage {
        target := workdir + "/" + fpre + "/body.dat";
        assert target == ModelsimPackageTarget(filename, Lib(e));
      } else {
        var arch := GetArch(filename, fs[filename], fpre);
        if arch.Failure? {
          assert Resolve(backend, fs, e) == Failure(arch.error);
          return Failure(arch.error), deplist';
        }
        target := workdir + "/" + fpre + "/" + arch.value + ".dat";
        assert target == ModelsimArchTarget(Lib(e), fpre, arch.value);
      }
      assert Resolve(backend, fs, e) == Success(target);
      deplist' := WriteModelsimRule(e, target, workdir, deplist);
      Assoc(lines0, [""], [PrereqLine(Modelsim, e, target, deplist)] + RecipeLines(Modelsim, e));
      res := Success(target);
    }

    /** The rest of Modelsim.writeTarget once the target is known: the prerequisite line and the recipe. */
    method WriteModelsimRule(e: Entry, target: string, workdir: string, deplist: seq<Entry>) returns (deplist': seq<Entry>)
      requires workdir == Workdir(Modelsim, Lib(e))
      modifies this`lines
      ensures lines == old(lines) + ([PrereqLine(Modelsim, e, target, deplist)] + RecipeLines(Modelsim, e))
      ensures deplist' == if Chained(e) then deplist + [e] else deplist
    {
      var filename := Source(e);
      var prereq := WriteSources(deplist, target + ": " + workdir + "/touched ");
      assert prereq + filename == PrereqLine(Modelsim, e, target, deplist) by {
        assert target + ": " + (workdir + "/touched ") == target + ": " + workdir + "/touched ";
      }
      ghost var lines0 := lines;
      lines := lines + [prereq + filename];
      if !Chained(e) {
        lines := lines + ["\tmkdir -p " + workdir, "\t$(VHDLC) -work " + e[1] + "  " + filename];
        deplist' := deplist;
      } else {
        lines := lines + ["\tmkdir -p " + workdir, "\t$(VHDLC) " + filename];
        deplist' := deplist + [e];
      }
      Assoc(lines0, [prereq + filename], RecipeLines(Modelsim, e));
    }

    /**
     * genMake's hw loop: a rule per entry, each given the loop's own list,
     * which gains every entry after its rule; the targets collected into the
     * aggregate line `hw: t1 t2 `. A failing entry stops the loop.
     */
    method WriteHwPhase(fs: map<string, Scan>, es: seq<Entry>) returns (fault: Option<Fault>, tgtstr: string)
      modifies this
      ensures var p := Phase(backend, Resolutions(backend, fs, es), es, |es|, true, []);
        && lines == old(lines) + PhaseLines(backend, p)
        && workdirs == old(workdirs) + p.libs
        && fault == p.fault
        && (fault.None? ==> tgtstr == Aggregate("hw", p.targets))
        && shared == old(shared)
    {
      ghost var start := lines;
      ghost var w0 := workdirs;
      ghost var rs := Resolutions(backend, fs, es);
      tgtstr := "hw: ";
      var deplist: seq<Entry> := [];
      var i := 0;
      ghost var ph := Phase(backend, rs, es, 0, true, []);
      while i < |es|
        invariant i <= |es|
        invariant ph == Phase(backend, rs, es, i, true, []) && ph.fault.None?
        invariant lines == start + PhaseLines(backend, ph) && workdirs == w0 + ph.libs
        invariant tgtstr == Aggregate("hw", ph.targets)
        invariant deplist == HwChain(es[..i]) && shared == old(shared)
      {
        ResolutionsAt(backend, fs, es, i);
        ghost var lines0, workdirs0, tgt0, deps0 := lines, workdirs, tgtstr, deplist;
        var res;
        res, tgtstr, deplist := WriteEntry(fs, es[i], true, deplist, tgtstr);
        HwStep(backend, rs, es, i, start, w0, lines0, lines, workdirs0, workdirs, tgt0, tgtstr, deps0, deplist, res);
        if res.Failure? {
          return Some(res.error), tgtstr;
        }
        ph := Phase(backend, rs, es, i + 1, true, []);
        i := i + 1;
      }
      fault := None;
    }

    /**
     * genMake's comp and sim loops: a rule per entry, each given the shared
     * default list, which gains the default-library entries; the targets
     * collected into the aggregate line `<name>: t1 t2 `. A failing entry
     * stops the loop.
     */
    method WriteDefaultPhase(fs: map<string, Scan>, es: seq<Entry>, name: string) returns (fault: Option<Fault>, tgtstr: string)
      modifies this
      ensures var p := Phase(backend, Resolutions(backend, fs, es), es, |es|, false, old(shared));
        && lines == old(lines) + PhaseLines(backend, p)
        && workdirs == old(workdirs) + p.libs
        && fault == p.fault
        && (fault.None? ==> tgtstr == Aggregate(name, p.targets))
        && shared == old(shared) + Defaults(es[..|p.targets|])
    {
      ghost var base := shared;
      ghost var start := lines;
      ghost var w0 := workdirs;
      ghost var rs := Resolutions(backend, fs, es);
      tgtstr := name + ": ";
      var i := 0;
      ghost var ph := Phase(backend, rs, es, 0, false, base);
      while i < |es|
        invariant i <= |es|
        invariant ph == Phase(backend, rs, es, i, false, base) && ph.fault.None?
        invariant lines == start + PhaseLines(backend, ph) && workdirs == w0 + ph.libs
        invariant tgtstr == Aggregate(name, ph.targets)
        invariant shared == base + Defaults(es[..i])
      {
        ResolutionsAt(backend, fs, es, i);
        ghost var lines0, workdirs0, tgt0, shared0 := lines, workdirs, tgtstr, shared;
        var res, unused;
        res, tgtstr, unused := WriteEntry(fs, es[i], false, [], tgtstr);
        DefaultStep(backend, rs, es, i, base, name, start, w0, lines0, lines, workdirs0, workdirs, tgt0, tgtstr, shared0, shared, res);
        if res.Failure? {
          return Some(res.error), tgtstr;
        }
        ph := Phase(backend, rs, es, i + 1, false, base);
        i := i + 1;
      }
      fault := None;
    }

    /**
     * One turn of a genMake loop: writeTarget for entry e with the loop's
     * dependency list (the hw list, or the shared default list), the target
     * added to the aggregate line and, in the hw loop, the entry appended to
     * the hw list.
     */
    method WriteEntry(fs: map<string, Scan>, e: Entry, hwMode: bool, deplist: seq<Entry>, tgtstr: string)
      returns (res: Result<string, Fault>, tgtstr': string, deplist': seq<Entry>)
      modifies this
      ensures res == Resolve(backend, fs, e)
      ensures lines == old(lines) + EntryLines(backend, e, res, if hwMode then deplist else old(shared))
      ensures workdirs == old(workdirs) + Registered(backend, e, res)
      ensures res.Success? ==> tgtstr' == tgtstr + (res.value + " ")
      ensures res.Success? && hwMode ==> deplist' == deplist + Link(e)
      ensures shared == if res.Success? && !hwMode then old(shared) + Default(e) else old(shared)
    {
      var deps := if hwMode then deplist else shared;
      var chain;
      res, chain := WriteTarget(fs, e, deps);
      tgtstr' := tgtstr;
      deplist' := deplist;
      if res.Success? {
        tgtstr' := tgtstr + (res.value + " ");
        if hwMode {
          deplist' := chain + [e];
        } else {
          shared := chain;
        }
      }
    }

    /** The work directories, each once, in some order: iterating a Python set. */
    method ListWorkdirs() returns (order: seq<string>)
      ensures Enumerates(order, workdirs)
    {
      var rest := workdirs;
      order := [];
      while rest != {}
        invariant rest <= workdirs
        invariant forall w :: w in workdirs <==> w in rest || w in order
        invariant forall w :: w in order ==> w !in rest
        invariant forall i, j :: 0 <= i < j < |order| ==> order[i] != order[j]
        decreases rest
      {
        var w :| w in rest;
        order := order + [w];
        rest := rest - {w};
      }
    }

    /**
     * genMake: truncates the Makefile, writes the header, the hw, comp and
     * sim rules with their aggregate lines, then runsim, clean and (Modelsim)
     * one bootstrap rule per work directory. `warned` is whether it prints
     * the missing-toplevel warning. A failing entry stops it with the lines
     * written so far left in place.
     */
    method GenMake(fs: map<string, Scan>, hwlist: seq<Entry>, complist: seq<Entry>, simlist: seq<Entry>, toplevel: string)
      returns (res: Result<(), Fault>, warned: bool)
      requires Valid()
      modifies this
      ensures Valid()
      ensures warned <==> Strip(toplevel) == ""
      ensures var g := Generation(backend, fs, hwlist, complist, simlist, old(shared));
        && workdirs == old(workdirs) + g.libs
        && shared == old(shared) + g.added
        && (res.Failure? <==> g.fault.Some?)
        && (res.Failure? ==> res.error == g.fault.value && lines == g.lines)
        && (res.Success? ==> exists order :: Enumerates(order, workdirs) && lines == g.lines + Trailer(backend, toplevel, order))
    {
      lines := [];
      warned := Strip(toplevel) == "";
      lines := lines + Header(backend);
      var fault := WriteRules(fs, hwlist, complist, simlist);
      if fault.Some? {
        return Failure(fault.value), warned;
      }
      var order := WriteTrailer(toplevel);
      res := Success(());
    }

    /**
     * The body of genMake after the header: the hw, comp and sim loops, each
     * followed by a blank line and its aggregate line, up to the first entry
     * that fails.
     */
    method WriteRules(fs: map<string, Scan>, hwlist: seq<Entry>, complist: seq<Entry>, simlist: seq<Entry>)
      returns (fault: Option<Fault>)
      requires lines == Header(backend)
      modifies this
      ensures var g := Generation(backend, fs, hwlist, complist, simlist, old(shared));
        && lines == g.lines
        && workdirs == old(workdirs) + g.libs
        && shared == old(shared) + g.added
        && fault == g.fault
      ensures backend == Sonata ==> workdirs == old(workdirs)
    {
      ghost var w0, shared0 := workdirs, shared;
      if backend == Sonata {
        SonataGeneration(fs, hwlist, complist, simlist, shared0);
      }
      ghost var o0 := Start(backend);
      assert workdirs == w0 + o0.libs && shared == shared0 + o0.added;
      fault := WriteHwStage(fs, hwlist, o0, w0, shared0);
      ghost var o1 := Stage(backend, fs, o0, hwlist, "hw", true, shared0);
      if fault.Some? {
        return;
      }
      fault := WriteDefaultStage(fs, complist, "comp", o1, w0, shared0);
      ghost var o2 := Stage(backend, fs, o1, complist, "comp", false, shared0);
      if fault.Some? {
        return;
      }
      fault := WriteDefaultStage(fs, simlist, "sim", o2, w0, shared0);
    }

    /** The hw loop after the header: its rules, then a blank line and `hw: ...` unless an entry failed. */
    method WriteHwStage(fs: map<string, Scan>, es: seq<Entry>, ghost o: Outcome, ghost w0: set<string>, ghost shared0: seq<Entry>)
      returns (fault: Option<Fault>)
      requires o.fault.None? && lines == o.lines && workdirs == w0 + o.libs && shared == shared0 + o.added
      modifies this
      ensures var o' := Stage(backend, fs, o, es, "hw", true, shared0);
        && lines == o'.lines && workdirs == w0 + o'.libs && shared == shared0 + o'.added && fault == o'.fault
    {
      var tgtstr;
      fault, tgtstr := WriteHwPhase(fs, es);
      assert o.added + [] == o.added;
      if fault.None? {
        lines := lines + ["", tgtstr];
      }
    }

    /** A comp or sim loop: its rules, then a blank line and its aggregate line unless an entry failed. */
    method WriteDefaultStage(fs: map<string, Scan>, es: seq<Entry>, name: string, ghost o: Outcome, ghost w0: set<string>, ghost shared0: seq<Entry>)
      returns (fault: Option<Fault>)
      requires o.fault.None? && lines == o.lines && workdirs == w0 + o.libs && shared == shared0 + o.added
      modifies this
      ensures var o' := Stage(backend, fs, o, es, name, false, shared0);
        && lines == o'.lines && workdirs == w0 + o'.libs && shared == shared0 + o'.added && fault == o'.fault
    {
      var tgtstr;
      fault, tgtstr := WriteDefaultPhase(fs, es, name);
      ghost var lines1 := lines;
      if fault.None? {
        lines := lines + ["", tgtstr];
      }
      DefaultStageStep(backend, fs, o, es, name, shared0, w0, lines1, lines, workdirs, shared, fault, tgtstr);
    }

    /**
     * The end of genMake: runsim, clean and, for Modelsim, the rule that
     * creates each work directory, in the order the set yields them.
     */
    method WriteTrailer(toplevel: string) returns (order: seq<string>)
      requires Valid()
      modifies this`lines
      ensures Enumerates(order, workdirs)
      ensures lines == old(lines) + Trailer(backend, toplevel, order)
    {
      ghost var lines0 := lines;
      ghost var opening := ["runsim: all", "\t$(VHDLS) " + toplevel, "", "", "clean:"];
      lines := lines + ["runsim: all", "\t$(VHDLS) " + toplevel, "", "", "clean:"];
      if backend == Sonata {
        order := [];
        lines := lines + ["\trm -Rf *.sym", ""];
        Assoc(lines0, opening, ["\trm -Rf *.sym", ""]);
      } else {
        order := ListWorkdirs();
        var rm := WriteWords(order, "\trm -Rf ");
        lines := lines + [rm, ""];
        ghost var head := lines;
        for i := 0 to |order|
          invariant lines == head + TouchedRules(order[..i])
        {
          assert order[..i + 1][..i] == order[..i];
          Assoc(head, TouchedRules(order[..i]), [order[i] + "/touched:", "\tvlib  " + order[i], "\ttouch  " + order[i] + "/touched"]);
          lines := lines + [order[i] + "/touched:", "\tvlib  " + order[i], "\ttouch  " + order[i] + "/touched"];
        }
        assert order[..|order|] == order;
        Assoc(lines0, opening, [rm, ""]);
        Assoc(lines0, opening + [rm, ""], TouchedRules(order));
      }
    }

    /** The loop writing `w ` for each work directory after `prefix`. */
    method WriteWords(ws: seq<string>, prefix: string) returns (s: string)
      ensures s == prefix + Spaced(ws)
    {
      s := prefix;
      for i := 0 to |ws|
        invariant s == prefix + Spaced(ws[..i])
      {
        assert ws[..i + 1][..i] == ws[..i];
        s := s + (ws[i] + " ");
      }
      assert ws[..|ws|] == ws;
    }
  }
}
