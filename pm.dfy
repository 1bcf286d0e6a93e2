/** Choosing the package manager from the lockfiles present (utils/pm.ts). */
module PackageManagers {

  datatype PackageManager = Pnpm | Yarn | Npm {
    /** The executable name. */
    function Name(): string {
      match this
      case Pnpm => "pnpm"
      case Yarn => "yarn"
      case Npm => "npm"
    }
  }

  /** `detectPackageManager()`: `files` are the names present in the working
      directory. A pnpm lockfile wins over a yarn lockfile. */
  function DetectPackageManager(files: set<string>): (pm: PackageManager)
    ensures pm == Pnpm <==> "pnpm-lock.yaml" in files
    ensures pm == Yarn <==> "pnpm-lock.yaml" !in files && "yarn.lock" in files
    ensures pm == Npm <==> "pnpm-lock.yaml" !in files && "yarn.lock" !in files
  {
    if "pnpm-lock.yaml" in files then Pnpm
    else if "yarn.lock" in files then Yarn
    else Npm
  }

  /** Only the two lockfiles matter: other files never change the choice. */
  lemma DetectionIgnoresOtherFiles(files: set<string>, extra: set<string>)
    requires "pnpm-lock.yaml" !in extra && "yarn.lock" !in extra
    ensures DetectPackageManager(files + extra) == DetectPackageManager(files)
  {}

  /** The executable names are distinct, so the name determines the manager. */
  lemma NamesDistinct(a: PackageManager, b: PackageManager)
    ensures a.Name() == b.Name() <==> a == b
  {}
}
