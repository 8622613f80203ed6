/**
 * The interactive terminal (`io: &mut impl CliInputOutput`) as far as the
 * unlock flow reads from it: the master-password prompt and `read_line`.
 * The user's replies are a fixed script, read in order through a cursor;
 * what the flow prints is not modelled.
 */
module Terminal {
  import opened Wrappers
  import opened Password

  /** One reply the user gives at a prompt, or the failure to read one. */
  datatype Reply = Typed(text: string) | Unreadable(error: IoError)

  /**
   * The outcome of reading the reply at `pos`, and the cursor after it.
   * Past the end of the script every read fails with `UnexpectedEof`.
   */
  function NextReply(script: seq<Reply>, pos: nat): (r: (Result<string, IoError>, nat))
    requires pos <= |script|
    ensures pos <= r.1 <= |script|
    ensures r.0.Ok? ==> pos < |script| && r.1 == pos + 1 && script[pos] == Typed(r.0.value)
    ensures r.0.Err? ==>
              || (pos == |script| && r.0.error == UnexpectedEof && r.1 == pos)
              || (pos < |script| && script[pos] == Unreadable(r.0.error) && r.1 == pos + 1)
  {
    if pos == |script| then (Err(UnexpectedEof), pos)
    else match script[pos]
      case Typed(text) => (Ok(text), pos + 1)
      case Unreadable(e) => (Err(e), pos + 1)
  }

  /** The terminal handle: the replies still to come are `script[pos..]`. */
  class Console {
    const script: seq<Reply>
    var pos: nat

    ghost predicate Valid()
      reads this
    {
      pos <= |script|
    }

    constructor (script: seq<Reply>)
      ensures Valid() && this.script == script && pos == 0
    {
      this.script := script;
      pos := 0;
    }

    /** `prompt_password`: reads the next reply as the master password. */
    method PromptPassword() returns (r: Result<string, IoError>)
      requires Valid()
      modifies this`pos
      ensures Valid()
      ensures (r, pos) == NextReply(script, old(pos))
    {
      var (password, next) := NextReply(script, pos);
      r, pos := password, next;
    }

    /** `read_line`: reads the next reply as a line of text. */
    method ReadLine() returns (r: Result<string, IoError>)
      requires Valid()
      modifies this`pos
      ensures Valid()
      ensures (r, pos) == NextReply(script, old(pos))
    {
      var (line, next) := NextReply(script, pos);
      r, pos := line, next;
    }
  }
}
