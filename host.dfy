/** The parts of the running interpreter's environment that the sleuth and
    its installer consult, passed in explicitly instead of read from `sys`,
    `site`, `os.environ` and the file system. */
module Host {
  import opened PyPath

  /** `sys.base_prefix` and `Path.cwd()`; both are absolute, so only their
      components are kept. */
  datatype Env = Env(basePrefix: seq<string>, cwd: seq<string>)

  /** What the `site` module reports, and which paths are directories. */
  datatype Site = Site(
    enableUserSite: bool,       // site.ENABLE_USER_SITE
    userSiteAllowed: bool,      // site.check_enableusersite()
    userSitePackages: Path,     // site.getusersitepackages()
    sitePackages: seq<Path>,    // site.getsitepackages(), in order
    dirs: set<Path>)            // the paths for which Path.is_dir() holds

  /** `os.environ` */
  type Environ = map<string, string>

  const KILL_VAR := "SYSPATH_SLEUTH_KILL"
  const INSTALL_ON_IMPORT_VAR := "SYSPATH_SLEUTH_INSTALL_ON_IMPORT"

  const USER_CUSTOMIZE := "usercustomize.py"
  const SITE_CUSTOMIZE := "sitecustomize.py"
  const SITE_PACKAGES := "site-packages"

  /** `site.ENABLE_USER_SITE and site.check_enableusersite()` */
  predicate UserSiteEnabled(site: Site) {
    site.enableUserSite && site.userSiteAllowed
  }

  /** `Path(site.getusersitepackages()) / "usercustomize.py"` */
  function UserCustomizePath(site: Site): (p: Path)
    ensures Name(p) == USER_CUSTOMIZE
  {
    Join(site.userSitePackages, USER_CUSTOMIZE)
  }
}
