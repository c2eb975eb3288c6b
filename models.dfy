/** Records shared by the noarch reconciler and the product synchroniser. */
module Models {
  import opened Wrappers

  /**
   * BuildTaskStatus: a task is scheduled (Idle), then running (Started), then
   * finishes as Completed, Failed or Excluded.
   */
  datatype TaskStatus = Idle | Started | Completed | Failed | Excluded {
    /** BuildTaskStatus.is_finished. */
    predicate IsFinished() {
      Completed? || Failed? || Excluded?
    }
  }

  /** A platform row, referred to here by its name. */
  datatype Platform = Platform(name: string)

  /**
   * A repository row (a build's or a product's). Only its `platform` link is
   * ever written by the modelled code.
   */
  class Repository {
    const name: string
    const arch: string
    const debug: bool
    const repoType: string
    const pulpHref: string
    var platform: Option<Platform>

    constructor (name: string, arch: string, debug: bool, repoType: string, pulpHref: string, platform: Option<Platform>)
      ensures this.name == name && this.arch == arch && this.debug == debug
      ensures this.repoType == repoType && this.pulpHref == pulpHref && this.platform == platform
    {
      this.name := name;
      this.arch := arch;
      this.debug := debug;
      this.repoType := repoType;
      this.pulpHref := pulpHref;
      this.platform := platform;
    }
  }
}
