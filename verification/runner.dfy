/** The boundary to the `git` executable: the commands the driver issues,
    their outcomes as supplied by an oracle, and `run`'s soft-failure
    policy. */
module Runner {
  import opened Wrappers

  /** Where an invocation of the external program broke down: creating its
      output pipe, starting it, reading its output, or waiting for it (which
      includes a non-zero exit status). */
  datatype Stage = Pipe | Start | Read | Wait

  /** The `git` invocations of the driver. */
  datatype Command =
    | CloneRepo(parent: string, url: string, leaf: string)
    | RemoteShow(dir: string)
    | Fetch(dir: string, refspec: string)
    | Reset(dir: string, target: string)
    | RevParseHead(dir: string)

  /** The directory the command runs in: the parent for a clone, the
      repository itself for every other command. */
  function WorkDir(c: Command): (dir: string)
    ensures c.CloneRepo? ==> dir == c.parent
    ensures !c.CloneRepo? ==> dir == c.dir
  {
    match c
    case CloneRepo(parent, _, _) => parent
    case RemoteShow(dir) => dir
    case Fetch(dir, _) => dir
    case Reset(dir, _) => dir
    case RevParseHead(dir) => dir
  }

  /** The command line, program name first. The detector and `rev-parse`
      have fixed command lines; the others end with the arguments that
      vary: the URL and leaf for a clone, the refspec for a fetch, the
      target for a reset. */
  function Argv(c: Command): (argv: seq<string>)
    ensures |argv| >= 3 && argv[0] == "git"
    ensures c.RemoteShow? ==> argv == ["git", "remote", "show", "origin"]
    ensures c.RevParseHead? ==> argv == ["git", "rev-parse", "HEAD"]
    ensures c.CloneRepo? ==> argv == ["git", "clone", "--depth", "1", c.url, c.leaf]
    ensures c.Fetch? ==> argv == ["git", "fetch", "--prune", "--no-tags", "--depth", "1", "origin", c.refspec]
    ensures c.Reset? ==> argv == ["git", "reset", "--hard", c.target]
  {
    match c
    case CloneRepo(_, url, leaf) => ["git", "clone", "--depth", "1", url, leaf]
    case RemoteShow(_) => ["git", "remote", "show", "origin"]
    case Fetch(_, refspec) => ["git", "fetch", "--prune", "--no-tags", "--depth", "1", "origin", refspec]
    case Reset(_, target) => ["git", "reset", "--hard", target]
    case RevParseHead(_) => ["git", "rev-parse", "HEAD"]
  }

  /** What an invocation produced: its captured output (combined output, or
      standard output for `rev-parse`) and where it failed, if it did. */
  datatype Outcome = Outcome(output: string, failure: Option<Stage>)

  /** The behaviour of `git` and the file system, taken as given. */
  type Oracle = Command -> Outcome

  /** Go's `(string, error)` pair. */
  datatype Reply = Reply(value: string, err: Option<Stage>)

  /** `run`: the captured output, and never an error. A failed invocation
      is only logged. */
  function Run(c: Command, oracle: Oracle): (r: Reply)
    ensures r.err.None?
    ensures r.value == oracle(c).output
  {
    var out := oracle(c);
    Reply(out.output, None)
  }

  /** Success and failure of the invocation are indistinguishable to
      `run`'s caller. */
  lemma RunHidesFailure(c: Command, o1: Oracle, o2: Oracle)
    requires o1(c).output == o2(c).output
    ensures Run(c, o1) == Run(c, o2)
  {
  }
}
