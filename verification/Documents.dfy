/** A decoded JSON object as the handlers hold it: a Go map that callees change. */
module Documents {
  import opened Json

  class Doc {
    var members: Members

    constructor (members: Members)
      ensures this.members == members
    {
      this.members := members;
    }
  }
}
