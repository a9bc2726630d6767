/**
 * Where each backend's compiler leaves the artifact of a compiled unit: the
 * file the generated Makefile names as a rule's target.
 *
 * Sonata (Symphony EDA, vhdlp/vhdle) keys every artifact by the source file's
 * name; Modelsim (vcom/vsim/vlib) keys an architecture by its entity's name
 * and a package by the source file's name.
 */
module ArtifactPaths {
  import opened Wrappers
  import opened Text
  import opened Manifest
  import opened ParseVhdl

  datatype Backend = Sonata | Modelsim

  /** The Makefile variable naming the default library directory. */
  const DefaultWorkdir: string := "$(WORKDIR)"

  /** The library directory: the default one, or `<lib>.sym` (Sonata) or `<lib>` itself (Modelsim). */
  function Workdir(b: Backend, lib: Option<string>): string
  {
    match lib
    case None => DefaultWorkdir
    case Some(l) => if b == Sonata then l + ".sym" else l
  }

  /** fpre: the file's base name up to its first '.', lower-cased. */
  function FilePrefix(path: string): string
  {
    Lower(Stem(Basename(path)))
  }

  /** fpre holds no '/', no '.' and no upper-case letter. */
  lemma FilePrefixShape(path: string)
    ensures var r := FilePrefix(path);
      && '/' !in r && '.' !in r
      && forall i :: 0 <= i < |r| ==> !IsUpper(r[i])
  {
    var stem := Stem(Basename(path));
    BasenameShape(path);
    StemShape(Basename(path));
    assert forall i :: 0 <= i < |stem| ==> stem[i] != '/' && stem[i] != '.' by {
      forall i | 0 <= i < |stem| ensures stem[i] != '/' && stem[i] != '.' {
        assert stem[i] == Basename(path)[i];
        assert stem[i] in stem;
        assert Basename(path)[i] in Basename(path);
      }
    }
    LowerShape(stem);
    var r := Lower(stem);
    assert forall i :: 0 <= i < |r| ==> r[i] != '/' && r[i] != '.';
  }

  /** Sonata: `<workdir>/<fpre>/prim.var` for a package, `<workdir>/<fpre>/_<arch>.var` otherwise. */
  function SonataTarget(path: string, lib: Option<string>, u: Unit): string
  {
    var leaf := match u
      case PackageUnit(_) => "prim.var"
      case ArchitectureUnit(a) => "_" + Lower(a) + ".var";
    Workdir(Sonata, lib) + "/" + FilePrefix(path) + "/" + leaf
  }

  /** Modelsim, package: `<workdir>/<fpre>/body.dat`. */
  function ModelsimPackageTarget(path: string, lib: Option<string>): string
  {
    Workdir(Modelsim, lib) + "/" + FilePrefix(path) + "/body.dat"
  }

  /** Modelsim, architecture: `<workdir>/<entity>/<arch>.dat`, the entity's case kept. */
  function ModelsimArchTarget(lib: Option<string>, entity: string, arch: string): string
  {
    Workdir(Modelsim, lib) + "/" + entity + "/" + arch + ".dat"
  }

  /**
   * The target writeTarget computes for entry e, or the exception it raises.
   * `fs` maps each readable path to what the searches find in that file.
   * Modelsim consults getEntity before getArch, whose pattern names the entity.
   */
  function Resolve(b: Backend, fs: map<string, Scan>, e: Entry): Result<string, Fault>
  {
    var path := Source(e);
    if path !in fs then Failure(Unreadable(path))
    else
      var scan := fs[path];
      match DetectUnit(path, scan)
      case Failure(x) => Failure(x)
      case Success(u) =>
        if b == Sonata then
          Success(SonataTarget(path, Lib(e), u))
        else if u.PackageUnit? then
          Success(ModelsimPackageTarget(path, Lib(e)))
        else
          match GetEntity(path, scan)
          case Failure(x) => Failure(x)
          case Success(entity) =>
            match GetArch(path, scan, entity)
            case Failure(x) => Failure(x)
            case Success(arch) => Success(ModelsimArchTarget(Lib(e), entity, arch))
  }

  /**
   * writeTarget fails exactly when the file cannot be read, holds neither an
   * architecture nor a package, or (Modelsim, architecture) has no entity or
   * no architecture of that entity; the error names the file.
   */
  lemma ResolveFails(b: Backend, fs: map<string, Scan>, e: Entry)
    ensures var r := Resolve(b, fs, e);
      && (r.Failure? <==>
        || Source(e) !in fs
        || (fs[Source(e)].archMatch.None? && fs[Source(e)].packageMatch.None?)
        || (b == Modelsim && fs[Source(e)].archMatch.Some? &&
            (fs[Source(e)].entityMatch.None? || fs[Source(e)].archOfEntity.None?)))
      && (r.Failure? ==> FaultPath(r.error) == Source(e))
  {
  }

  /** A target lies in the entry's library directory and ends in `.var` (Sonata) or `.dat` (Modelsim). */
  lemma ResolveShape(b: Backend, fs: map<string, Scan>, e: Entry)
    ensures var r := Resolve(b, fs, e);
      r.Success? ==> StartsWith(r.value, Workdir(b, Lib(e)) + "/") &&
                     EndsWith(r.value, if b == Sonata then ".var" else ".dat")
  {
    var r := Resolve(b, fs, e);
    if r.Success? {
      var path := Source(e);
      var u := DetectUnit(path, fs[path]).value;
      if b == Sonata {
        SonataTargetShape(path, Lib(e), u);
      } else if u.PackageUnit? {
        ModelsimPackageTargetShape(path, Lib(e));
      } else {
        var entity := GetEntity(path, fs[path]).value;
        ModelsimArchTargetShape(Lib(e), entity, GetArch(path, fs[path], entity).value);
      }
    }
  }

  lemma SonataTargetShape(path: string, lib: Option<string>, u: Unit)
    ensures var t := SonataTarget(path, lib, u);
      StartsWith(t, Workdir(Sonata, lib) + "/") && EndsWith(t, ".var")
  {
    var t := SonataTarget(path, lib, u);
    var w := Workdir(Sonata, lib);
    assert t[..|w| + 1] == w + "/";
    assert t[|t| - 4..] == ".var";
  }

  lemma ModelsimPackageTargetShape(path: string, lib: Option<string>)
    ensures var t := ModelsimPackageTarget(path, lib);
      StartsWith(t, Workdir(Modelsim, lib) + "/") && EndsWith(t, ".dat")
  {
    var t := ModelsimPackageTarget(path, lib);
    var w := Workdir(Modelsim, lib);
    assert t[..|w| + 1] == w + "/";
    assert t[|t| - 4..] == ".dat";
  }

  lemma ModelsimArchTargetShape(lib: Option<string>, entity: string, arch: string)
    ensures var t := ModelsimArchTarget(lib, entity, arch);
      StartsWith(t, Workdir(Modelsim, lib) + "/") && EndsWith(t, ".dat")
  {
    var t := ModelsimArchTarget(lib, entity, arch);
    var w := Workdir(Modelsim, lib);
    assert t[..|w| + 1] == w + "/";
    assert t[|t| - 4..] == ".dat";
  }

  predicate StartsWith(s: string, prefix: string)
  {
    |prefix| <= |s| && s[..|prefix|] == prefix
  }

  predicate EndsWith(s: string, suffix: string)
  {
    |suffix| <= |s| && s[|s| - |suffix|..] == suffix
  }

  /**
   * In Sonata a package's artifact never coincides with an architecture's
   * artifact from the same file and library: the leaf is `prim.var` against
   * `_<arch>.var`.
   */
  lemma SonataKindsDistinct(path: string, lib: Option<string>, pkg: string, arch: string)
    ensures SonataTarget(path, lib, PackageUnit(pkg)) != SonataTarget(path, lib, ArchitectureUnit(arch))
  {
    var dir := Workdir(Sonata, lib) + "/" + FilePrefix(path) + "/";
    var t1 := SonataTarget(path, lib, PackageUnit(pkg));
    var t2 := SonataTarget(path, lib, ArchitectureUnit(arch));
    assert t1 == dir + "prim.var";
    assert t2 == dir + ("_" + Lower(arch) + ".var");
    assert t1[|dir|] == 'p';
    assert t2[|dir|] == '_';
  }

  /**
   * In Sonata the default library and a named library never share an artifact
   * directory: `$(WORKDIR)` ends in ')' and `<lib>.sym` in 'm'.
   */
  lemma SonataLibraryNotDefault(lib: string)
    ensures Workdir(Sonata, Some(lib)) != Workdir(Sonata, None)
  {
    var w := Workdir(Sonata, Some(lib));
    assert w[|w| - 1] == 'm';
    assert DefaultWorkdir[|DefaultWorkdir| - 1] == ')';
  }

  /**
   * Sonata keys artifacts by the file's name alone: the same file name in two
   * directories gives one artifact (the generator does not detect this).
   */
  lemma SonataIgnoresDirectory(dir1: string, dir2: string, name: string, lib: Option<string>, u: Unit)
    requires '/' !in name
    ensures SonataTarget(dir1 + "/" + name, lib, u) == SonataTarget(dir2 + "/" + name, lib, u)
  {
    BasenameAfterSlash(dir1, name);
    BasenameAfterSlash(dir2, name);
  }
}
