/**
 * What the generator learns from a VHDL source file. The file is never read
 * here: a `Scan` holds the results of the four searches the generator runs on
 * its text (archRE, packageRE, and ParseVHDL's entity and
 * architecture-of-entity patterns), each None when its pattern does not match.
 */
module ParseVhdl {
  import opened Wrappers
  import opened Text

  datatype Scan = Scan(
    archMatch: Option<string>,      // group 1 of "architecture (.+) of"
    packageMatch: Option<string>,   // group 1 of "package (.+) is"
    entityMatch: Option<string>,    // group 1 of "entity (\w+) is", the first entity
    archOfEntity: Option<string>)   // group 1 of "architecture (\w+) of <that entity> is"

  /** The exceptions writeTarget can raise, each naming the file it was working on. */
  datatype Fault =
    | Unreadable(path: string)                       // file(filename) fails
    | NoUnit(path: string)                           // neither pattern matches: m.groups() on None
    | NoEntity(path: string)                         // getEntity finds no entity
    | NoArchitecture(path: string, entity: string)   // getArch finds no architecture of that entity

  function FaultPath(x: Fault): string
  {
    match x
    case Unreadable(p) => p
    case NoUnit(p) => p
    case NoEntity(p) => p
    case NoArchitecture(p, _) => p
  }

  /** What writeTarget decides a file holds: an architecture (with archRE's name) or a package. */
  datatype Unit = ArchitectureUnit(archType: string) | PackageUnit(packageName: string)

  /**
   * A file is an architecture when archRE matches; otherwise it must be a
   * package, and when packageRE does not match either, writeTarget fails.
   */
  function DetectUnit(path: string, scan: Scan): (r: Result<Unit, Fault>)
    ensures r.Success? && r.value.PackageUnit? <==> scan.archMatch.None? && scan.packageMatch.Some?
    ensures r.Success? && r.value.ArchitectureUnit? <==> scan.archMatch.Some?
    ensures r.Failure? <==> r == Failure(NoUnit(path))
    ensures r.Success? && r.value.ArchitectureUnit? ==> scan.archMatch == Some(r.value.archType)
  {
    match scan.archMatch
    case Some(a) => Success(ArchitectureUnit(a))
    case None =>
      match scan.packageMatch
      case Some(p) => Success(PackageUnit(p))
      case None => Failure(NoUnit(path))
  }

  /** ParseVHDL.getEntity: the first entity's name, case kept. */
  function GetEntity(path: string, scan: Scan): (r: Result<string, Fault>)
    ensures r.Success? <==> scan.entityMatch.Some?
    ensures r.Success? ==> r.value == scan.entityMatch.value
    ensures r.Failure? ==> r.error == NoEntity(path)
  {
    match scan.entityMatch
    case Some(e) => Success(e)
    case None => Failure(NoEntity(path))
  }

  /** ParseVHDL.getArch: the name of the architecture of `entity`, lower-cased. */
  function GetArch(path: string, scan: Scan, entity: string): (r: Result<string, Fault>)
    ensures r.Success? <==> scan.archOfEntity.Some?
    ensures r.Success? ==> r.value == Lower(scan.archOfEntity.value)
    ensures r.Failure? ==> r.error == NoArchitecture(path, entity)
  {
    match scan.archOfEntity
    case Some(a) => Success(Lower(a))
    case None => Failure(NoArchitecture(path, entity))
  }
}
