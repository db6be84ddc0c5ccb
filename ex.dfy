/** The identities an experiment is made of: crates, toolchains, the
    experiment record itself. (The module `ex` that defines them in
    cargobomb is not part of this model; only the shapes the core uses are.) */
module Ex {
  import opened Common

  /** A registry release or a git repository pinned to a commit. */
  datatype ExCrate =
    | Version(name: string, version: string)
    | Repo(url: string, sha: string)

  /** A toolchain, known to the core only through its rustup name. */
  datatype Toolchain = Toolchain(rustupName: string)

  /** The experiment mode; its variants are not part of this model. */
  datatype ExMode = ExMode(tag: string)

  datatype Experiment = Experiment(
    name: string,
    crates: seq<ExCrate>,
    toolchains: seq<Toolchain>,
    mode: ExMode)

  /** `gh_mirrors::gh_url_to_org_and_name`: a GitHub URL to its
      organisation and repository name, or None when it does not parse. */
  type UrlParser = string -> Option<(string, string)>

  /** The URL-derived parts of a crate identity are available. */
  predicate Resolvable(gh: UrlParser, c: ExCrate) {
    c.Repo? ==> gh(c.url).Some?
  }
}
