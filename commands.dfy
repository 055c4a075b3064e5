/**
  The command side of src/sim800/mod.rs: a command goes to the writer
  thread, then the responses that the reader thread queued are taken
  one by one up to the first acknowledgement or error. The two channels
  are modelled as sequences: `commands` holds what went to the writer,
  `responses` what is queued and not yet taken.
*/
module Commands {

  import opened Base
  import opened Responses

  /**
    The responses a drain keeps: those before the first terminal one
    (all of them when none is terminal).
  */
  function Before(rs: seq<Response>): (kept: seq<Response>)
    ensures kept <= rs
    ensures forall k :: 0 <= k < |kept| ==> !IsTerminal(kept[k])
    ensures |kept| < |rs| ==> IsTerminal(rs[|kept|])
    decreases |rs|
  {
    if rs == [] || IsTerminal(rs[0]) then [] else [rs[0]] + Before(rs[1..])
  }

  /** How many responses a drain takes from the channel: through the first terminal one, or all. */
  function Consumed(rs: seq<Response>): (n: nat)
    ensures n <= |rs|
    ensures n == |rs| || (n == |Before(rs)| + 1 && IsTerminal(rs[n - 1]))
    ensures n == |Before(rs)| || n == |Before(rs)| + 1
    decreases |rs|
  {
    if rs == [] then 0
    else if IsTerminal(rs[0]) then 1
    else 1 + Consumed(rs[1..])
  }

  /** The last response before the first terminal one, if there is one. */
  function LastBefore(rs: seq<Response>): (last: Option<Response>)
    ensures last.Some? ==> !IsTerminal(last.value) && last.value in rs
    decreases |rs|
  {
    if rs == [] || IsTerminal(rs[0]) then None
    else
      match LastBefore(rs[1..])
      case None => Some(rs[0])
      case Some(later) => Some(later)
  }

  /** What the writer thread may do with a command: take it, or (having ended) refuse it. */
  datatype Sent<T> = Sent(value: T) | Refused(command: string)

  /** The handle the program talks to the modem through. */
  class Modem {
    /** The commands handed to the writer thread, in order. */
    var commands: seq<string>
    /** The responses the reader thread queued and nobody has taken yet. */
    var responses: seq<Response>
    /** Whether the writer thread still takes commands. */
    var writerOpen: bool

    constructor (queued: seq<Response>)
      ensures commands == [] && responses == queued && writerOpen
    {
      commands, responses, writerOpen := [], queued, true;
    }

    /**
      The writer thread ending, as a failed `write_all` or `flush` ends it:
      every later command is refused, and nothing queued is touched.
    */
    method WriterEnded()
      modifies this
      ensures !writerOpen && commands == old(commands) && responses == old(responses)
    {
      writerOpen := false;
    }

    /** `send`: the command, then every response up to and including the first terminal one, dropped. */
    method Send(command: string) returns (r: Sent<()>)
      modifies this
      ensures !old(writerOpen) ==> r == Refused(command) && unchanged(this)
      ensures old(writerOpen) ==> && r == Sent(())
                                  && commands == old(commands) + [command]
                                  && responses == old(responses)[Consumed(old(responses))..]
                                  && writerOpen
    {
      if !writerOpen {
        return Refused(command);
      }
      commands := commands + [command];
      ghost var queued := responses;
      var taken := 0;
      while responses != []
        invariant commands == old(commands) + [command] && writerOpen
        invariant taken <= |queued| && responses == queued[taken..]
        invariant taken + Consumed(responses) == Consumed(queued)
        decreases |responses|
      {
        var response := responses[0];
        responses := responses[1..];
        taken := taken + 1;
        if IsTerminal(response) {
          break;
        }
      }
      return Sent(());
    }

    /** `send_one`: like `send`, keeping the last response before the terminal one. */
    method SendOne(command: string) returns (r: Sent<Option<Response>>)
      modifies this
      ensures !old(writerOpen) ==> r == Refused(command) && unchanged(this)
      ensures old(writerOpen) ==> && r == Sent(LastBefore(old(responses)))
                                  && commands == old(commands) + [command]
                                  && responses == old(responses)[Consumed(old(responses))..]
                                  && writerOpen
    {
      if !writerOpen {
        return Refused(command);
      }
      var result: Option<Response> := None;
      commands := commands + [command];
      ghost var queued := responses;
      var taken := 0;
      while responses != []
        invariant commands == old(commands) + [command] && writerOpen
        invariant taken <= |queued| && responses == queued[taken..]
        invariant taken + Consumed(responses) == Consumed(queued)
        invariant LastBefore(queued) == Latest(result, LastBefore(responses))
        decreases |responses|
      {
        var response := responses[0];
        responses := responses[1..];
        taken := taken + 1;
        if IsTerminal(response) {
          break;
        }
        result := Some(response);
      }
      return Sent(result);
    }

    /** `send_list`: like `send`, keeping every response before the terminal one, in order. */
    method SendList(command: string) returns (r: Sent<seq<Response>>)
      modifies this
      ensures !old(writerOpen) ==> r == Refused(command) && unchanged(this)
      ensures old(writerOpen) ==> && r == Sent(Before(old(responses)))
                                  && commands == old(commands) + [command]
                                  && responses == old(responses)[Consumed(old(responses))..]
                                  && writerOpen
    {
      if !writerOpen {
        return Refused(command);
      }
      var result: seq<Response> := [];
      commands := commands + [command];
      ghost var queued := responses;
      var taken := 0;
      while responses != []
        invariant commands == old(commands) + [command] && writerOpen
        invariant taken <= |queued| && responses == queued[taken..]
        invariant taken + Consumed(responses) == Consumed(queued)
        invariant Before(queued) == result + Before(responses)
        decreases |responses|
      {
        var response := responses[0];
        responses := responses[1..];
        taken := taken + 1;
        if IsTerminal(response) {
          assert result + [] == result;
          break;
        }
        result := result + [response];
      }
      assert result + [] == result;
      return Sent(result);
    }
  }

  /** The later of two observations: `later` when there is one, otherwise `earlier`. */
  function Latest(earlier: Option<Response>, later: Option<Response>): Option<Response> {
    if later.Some? then later else earlier
  }

  /**
    What `send_one` returns is the last element of what `send_list`
    returns over the same responses, or nothing when that list is empty.
  */
  lemma {:induction false} LastOfList(rs: seq<Response>)
    ensures LastBefore(rs) == if Before(rs) == [] then None else Some(Before(rs)[|Before(rs)| - 1])
    decreases |rs|
  {
    if rs != [] && !IsTerminal(rs[0]) {
      LastOfList(rs[1..]);
    }
  }

  /**
    A drain keeps exactly the responses it consumed, less the terminal one:
    the taken part is the kept list followed (when one came) by the first
    terminal response.
  */
  lemma {:induction false} ConsumedSplits(rs: seq<Response>)
    ensures rs[..Consumed(rs)] == Before(rs) + (if Consumed(rs) > |Before(rs)| then [rs[|Before(rs)|]] else [])
    decreases |rs|
  {
    if rs != [] && !IsTerminal(rs[0]) {
      ConsumedSplits(rs[1..]);
      assert rs[..Consumed(rs)] == [rs[0]] + rs[1..][..Consumed(rs[1..])];
    }
  }

  /**
    Responses that come after the terminal one are left in the channel,
    for the next command: draining `kept + [terminal] + later` takes
    `kept` (no terminal in it) and leaves `later` untouched.
  */
  lemma {:induction false} DrainStopsAtTerminal(kept: seq<Response>, terminal: Response, later: seq<Response>)
    requires forall k :: 0 <= k < |kept| ==> !IsTerminal(kept[k])
    requires IsTerminal(terminal)
    ensures Before(kept + [terminal] + later) == kept
    ensures Consumed(kept + [terminal] + later) == |kept| + 1
    decreases |kept|
  {
    var rs := kept + [terminal] + later;
    if kept == [] {
      assert rs[0] == terminal;
    } else {
      assert rs[0] == kept[0];
      assert rs[1..] == kept[1..] + [terminal] + later;
      DrainStopsAtTerminal(kept[1..], terminal, later);
    }
  }
}
