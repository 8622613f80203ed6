/**
 * Opening the password file (src/password_store.rs): one unlock attempt that
 * may migrate a version-1 file, and the interactive flow around it that asks
 * for the master password, retries a bounded number of times, and asks the
 * user before migrating.
 *
 * `PasswordStore::from_input` and `password::upgrade` are not part of this
 * model; they are parameters (`Opener`s) that map the master password and the
 * file contents to a store or an error. The store itself is the type
 * parameter `Store`, about which nothing is assumed.
 */
module PasswordStore {
  import opened Wrappers
  import opened Password
  import opened Terminal

  type Bytes = seq<bv8>

  /** `from_input` or `upgrade`: master password and file contents to a store or an error. */
  type Opener<Store> = (string, Bytes) -> Result<Store, PasswordError>

  /** The retry budget `get_password_store` starts with. */
  const UNLOCK_RETRIES: int := 3

  /** The exit code every failure of `get_password_store` is mapped to. */
  const FAILURE_EXIT_CODE: int := 1

  // ---------------------------------------------------------------------
  // One unlock attempt

  /**
   * `get_password_store_from_input`: opens the file as it is; a version-1
   * file is migrated with `upgradeV1` when `upgrade` is set and reported as
   * `NeedUpgradeErrorFromV1` otherwise; every other outcome passes through.
   */
  function GetPasswordStoreFromInput<Store>(input: Bytes, masterPassword: string, upgrade: bool,
                                            fromInput: Opener<Store>, upgradeV1: Opener<Store>)
    : (r: Result<Store, PasswordError>)
    ensures fromInput(masterPassword, input) != Err(NeedUpgradeErrorFromV1) ==> r == fromInput(masterPassword, input)
    ensures fromInput(masterPassword, input) == Err(NeedUpgradeErrorFromV1) && !upgrade ==> r == Err(NeedUpgradeErrorFromV1)
    ensures fromInput(masterPassword, input) == Err(NeedUpgradeErrorFromV1) && upgrade ==> r == upgradeV1(masterPassword, input)
  {
    match fromInput(masterPassword, input)
    case Ok(store) => Ok(store)
    case Err(CorruptionError) => Err(CorruptionError)
    case Err(OutdatedRoosterBinaryError) => Err(OutdatedRoosterBinaryError)
    case Err(NeedUpgradeErrorFromV1) =>
      if !upgrade then Err(NeedUpgradeErrorFromV1)
      else
        (match upgradeV1(masterPassword, input)
         case Ok(store) => Ok(store)
         case Err(err) => Err(err))
    case Err(err) => Err(err)
  }

  /** The migration is consulted only for a version-1 file and only when it was asked for. */
  lemma UpgradeConsultedOnlyWhenAsked<Store>(input: Bytes, masterPassword: string, upgrade: bool,
                                             fromInput: Opener<Store>, upgradeA: Opener<Store>, upgradeB: Opener<Store>)
    requires !upgrade || fromInput(masterPassword, input) != Err(NeedUpgradeErrorFromV1)
    ensures GetPasswordStoreFromInput(input, masterPassword, upgrade, fromInput, upgradeA)
         == GetPasswordStoreFromInput(input, masterPassword, upgrade, fromInput, upgradeB)
  {
  }

  /** `upgradeV1` never reports that the file still needs an upgrade, for this file. */
  ghost predicate UpgradeSettles<Store>(upgradeV1: Opener<Store>, input: Bytes) {
    forall masterPassword :: upgradeV1(masterPassword, input) != Err(NeedUpgradeErrorFromV1)
  }

  /** An attempt that may migrate reports `NeedUpgradeErrorFromV1` only if the migration itself does. */
  lemma UpgradeRequestedIsFinal<Store>(input: Bytes, masterPassword: string,
                                       fromInput: Opener<Store>, upgradeV1: Opener<Store>)
    requires upgradeV1(masterPassword, input) != Err(NeedUpgradeErrorFromV1)
    ensures GetPasswordStoreFromInput(input, masterPassword, true, fromInput, upgradeV1) != Err(NeedUpgradeErrorFromV1)
  {
  }

  // ---------------------------------------------------------------------
  // The upgrade question

  datatype UpgradeAnswer = Yes | No | Unanswered(error: IoError)

  /** `line.starts_with(c)`. */
  predicate StartsWith(line: string, c: char) {
    |line| > 0 && line[0] == c
  }

  /** A reply that answers the upgrade question neither way. */
  predicate Unclear(reply: Reply) {
    reply.Typed? && !StartsWith(reply.text, 'y') && !StartsWith(reply.text, 'n')
  }

  /**
   * The `loop` over `read_line` after a version-1 file was found: the first
   * reply that starts with 'y' or 'n' answers; a read error ends the question;
   * every other reply (an empty one, "Y", ...) makes it ask again. Returns the
   * answer and the cursor after the replies it read.
   */
  function AskUpgrade(script: seq<Reply>, pos: nat): (r: (UpgradeAnswer, nat))
    requires pos <= |script|
    ensures pos <= r.1 <= |script|
    ensures forall j :: pos <= j < r.1 - 1 ==> Unclear(script[j])
    ensures r.0 == Yes ==> pos < r.1 && script[r.1 - 1].Typed? && StartsWith(script[r.1 - 1].text, 'y')
    ensures r.0 == No ==> pos < r.1 && script[r.1 - 1].Typed? && StartsWith(script[r.1 - 1].text, 'n')
    ensures r.0.Unanswered? ==>
              || (r.1 == |script| && r.0.error == UnexpectedEof && (r.1 > pos ==> Unclear(script[r.1 - 1])))
              || (pos < r.1 && script[r.1 - 1] == Unreadable(r.0.error))
    decreases |script| - pos
  {
    match NextReply(script, pos)
    case (Err(e), next) => (Unanswered(e), next)
    case (Ok(line), next) =>
      if StartsWith(line, 'y') then (Yes, next)
      else if StartsWith(line, 'n') then (No, next)
      else AskUpgrade(script, next)
  }

  /** Unclear replies are skipped: the question is answered by what follows them. */
  lemma {:induction false} UnclearRepliesSkipped(script: seq<Reply>, pos: nat, k: nat)
    requires pos <= k <= |script|
    requires forall j :: pos <= j < k ==> Unclear(script[j])
    ensures AskUpgrade(script, pos) == AskUpgrade(script, k)
    decreases k - pos
  {
    if pos < k {
      assert Unclear(script[pos]);
      UnclearRepliesSkipped(script, pos + 1, k);
    }
  }

  // ---------------------------------------------------------------------
  // The interactive flow

  /**
   * What one run of the interactive flow did: its result, the cursor after
   * the replies it read, the number of unlock attempts it made and how many
   * of them failed with an error that only the catch-all arm handles.
   */
  datatype Run<Store> = Run(result: Result<Store, PasswordError>, next: nat, attempts: nat, failures: nat)

  /** The errors the interactive flow does not name, so it retries on them. */
  predicate Retryable(e: PasswordError) {
    !(e.CorruptionError? || e.OutdatedRoosterBinaryError? || e.Io? || e.NeedUpgradeErrorFromV1?)
  }

  /**
   * `get_password_store_from_input_interactive` on the replies
   * `script[pos..]`, as a function. Every call reads at least one reply
   * before it calls itself, so the remaining replies decrease.
   */
  function Interactive<Store>(input: Bytes, retries: int, forceUpgrade: bool, script: seq<Reply>, pos: nat,
                              fromInput: Opener<Store>, upgradeV1: Opener<Store>): (run: Run<Store>)
    requires 0 <= retries && pos <= |script|
    ensures pos <= run.next <= |script|
    ensures run.failures <= retries && run.failures <= run.attempts
    ensures retries == 0 ==> run.result == Err(CorruptionLikelyError) && run.next == pos && run.attempts == 0
    ensures run.result.Err? ==> !run.result.error.Other?
    ensures run.result != Err(NeedUpgradeErrorFromV1)
    decreases |script| - pos
  {
    if retries == 0 then Run(Err(CorruptionLikelyError), pos, 0, 0)
    else
      var (password, afterPassword) := NextReply(script, pos);
      if password.Err? then Run(Err(Io(password.error)), afterPassword, 0, 0)
      else
        var attempt := GetPasswordStoreFromInput(input, password.value, forceUpgrade, fromInput, upgradeV1);
        if attempt.Ok? then Run(attempt, afterPassword, 1, 0)
        else if attempt.error == NeedUpgradeErrorFromV1 then
          var (answer, afterAnswer) := AskUpgrade(script, afterPassword);
          if answer == Yes then
            var rest := Interactive(input, retries, true, script, afterAnswer, fromInput, upgradeV1);
            rest.(attempts := rest.attempts + 1)
          else if answer == No then Run(Err(NoUpgradeError), afterAnswer, 1, 0)
          else Run(Err(Io(answer.error)), afterAnswer, 1, 0)
        else if Retryable(attempt.error) then
          var rest := Interactive(input, retries - 1, false, script, afterPassword, fromInput, upgradeV1);
          rest.(attempts := rest.attempts + 1, failures := rest.failures + 1)
        else
          // CorruptionError, OutdatedRoosterBinaryError, Io
          Run(attempt, afterPassword, 1, 0)
  }

  /** A master password that cannot be read ends the flow with `Io` at once, before any attempt. */
  lemma PasswordUnreadable<Store>(input: Bytes, retries: int, forceUpgrade: bool, script: seq<Reply>, pos: nat,
                                  fromInput: Opener<Store>, upgradeV1: Opener<Store>)
    requires 0 < retries && pos <= |script|
    requires pos == |script| || script[pos].Unreadable?
    ensures var run := Interactive(input, retries, forceUpgrade, script, pos, fromInput, upgradeV1);
            && run.result == Err(Io(if pos == |script| then UnexpectedEof else script[pos].error))
            && run.attempts == 0 && run.failures == 0
  {
  }

  /** Corruption, an outdated binary and an I/O error from the attempt are returned unchanged and never retried. */
  lemma TerminalErrorsNotRetried<Store>(input: Bytes, retries: int, forceUpgrade: bool, script: seq<Reply>, pos: nat,
                                        fromInput: Opener<Store>, upgradeV1: Opener<Store>)
    requires 0 < retries && pos < |script| && script[pos].Typed?
    requires var attempt := GetPasswordStoreFromInput(input, script[pos].text, forceUpgrade, fromInput, upgradeV1);
             attempt.Err? && (attempt.error.CorruptionError? || attempt.error.OutdatedRoosterBinaryError? || attempt.error.Io?)
    ensures var run := Interactive(input, retries, forceUpgrade, script, pos, fromInput, upgradeV1);
            && run.result == GetPasswordStoreFromInput(input, script[pos].text, forceUpgrade, fromInput, upgradeV1)
            && run.next == pos + 1 && run.attempts == 1 && run.failures == 0
  {
  }

  /** Any other error costs one retry: the flow starts over with one retry less and without forcing the upgrade. */
  lemma CatchAllRetries<Store>(input: Bytes, retries: int, forceUpgrade: bool, script: seq<Reply>, pos: nat,
                               fromInput: Opener<Store>, upgradeV1: Opener<Store>)
    requires 0 < retries && pos < |script| && script[pos].Typed?
    requires var attempt := GetPasswordStoreFromInput(input, script[pos].text, forceUpgrade, fromInput, upgradeV1);
             attempt.Err? && Retryable(attempt.error)
    ensures var run := Interactive(input, retries, forceUpgrade, script, pos, fromInput, upgradeV1);
            var rest := Interactive(input, retries - 1, false, script, pos + 1, fromInput, upgradeV1);
            && run.result == rest.result && run.next == rest.next
            && run.attempts == rest.attempts + 1 && run.failures == rest.failures + 1
  {
  }

  /**
   * On a version-1 file the flow asks before migrating: 'y' starts over with
   * the same retries and the upgrade forced, 'n' ends with `NoUpgradeError`,
   * a read error ends with `Io`.
   */
  lemma UpgradeQuestion<Store>(input: Bytes, retries: int, forceUpgrade: bool, script: seq<Reply>, pos: nat,
                               fromInput: Opener<Store>, upgradeV1: Opener<Store>)
    requires 0 < retries && pos < |script| && script[pos].Typed?
    requires GetPasswordStoreFromInput(input, script[pos].text, forceUpgrade, fromInput, upgradeV1)
          == Err(NeedUpgradeErrorFromV1)
    ensures var run := Interactive(input, retries, forceUpgrade, script, pos, fromInput, upgradeV1);
            var answer := AskUpgrade(script, pos + 1).0;
            var forced := Interactive(input, retries, true, script, AskUpgrade(script, pos + 1).1, fromInput, upgradeV1);
            && (answer == Yes ==> run.result == forced.result && run.attempts == forced.attempts + 1
                                  && run.failures == forced.failures)
            && (answer == No ==> run.result == Err(NoUpgradeError))
            && (answer.Unanswered? ==> run.result == Err(Io(answer.error)))
  {
  }

  /**
   * The flow gives up with `CorruptionLikelyError` exactly when `retries`
   * attempts failed with a retryable error.
   */
  lemma {:induction false} GivesUpOnlyWhenRetriesExhausted<Store>(input: Bytes, retries: int, forceUpgrade: bool,
                                                                  script: seq<Reply>, pos: nat,
                                                                  fromInput: Opener<Store>, upgradeV1: Opener<Store>)
    requires 0 <= retries && pos <= |script|
    ensures var run := Interactive(input, retries, forceUpgrade, script, pos, fromInput, upgradeV1);
            run.result == Err(CorruptionLikelyError) <==> run.failures == retries
    decreases |script| - pos
  {
    if retries > 0 {
      var (password, afterPassword) := NextReply(script, pos);
      if password.Ok? {
        var attempt := GetPasswordStoreFromInput(input, password.value, forceUpgrade, fromInput, upgradeV1);
        if attempt == Err(NeedUpgradeErrorFromV1) {
          var (answer, afterAnswer) := AskUpgrade(script, afterPassword);
          if answer == Yes {
            GivesUpOnlyWhenRetriesExhausted(input, retries, true, script, afterAnswer, fromInput, upgradeV1);
          }
        } else if attempt.Err? && Retryable(attempt.error) {
          GivesUpOnlyWhenRetriesExhausted(input, retries - 1, false, script, afterPassword, fromInput, upgradeV1);
        }
      }
    }
  }

  /**
   * When the migration never asks for another migration, the flow makes at
   * most two unlock attempts per retry, however many replies are available;
   * once the upgrade is forced, at most one less.
   */
  lemma {:induction false} AttemptsBounded<Store>(input: Bytes, retries: int, forceUpgrade: bool,
                                                  script: seq<Reply>, pos: nat,
                                                  fromInput: Opener<Store>, upgradeV1: Opener<Store>)
    requires 0 <= retries && pos <= |script|
    requires UpgradeSettles(upgradeV1, input)
    ensures var run := Interactive(input, retries, forceUpgrade, script, pos, fromInput, upgradeV1);
            && run.attempts <= 2 * retries
            && (forceUpgrade && retries > 0 ==> run.attempts < 2 * retries)
    decreases |script| - pos
  {
    if retries > 0 {
      var (password, afterPassword) := NextReply(script, pos);
      if password.Ok? {
        if forceUpgrade {
          assert upgradeV1(password.value, input) != Err(NeedUpgradeErrorFromV1);
          UpgradeRequestedIsFinal(input, password.value, fromInput, upgradeV1);
        }
        var attempt := GetPasswordStoreFromInput(input, password.value, forceUpgrade, fromInput, upgradeV1);
        if attempt == Err(NeedUpgradeErrorFromV1) {
          var (answer, afterAnswer) := AskUpgrade(script, afterPassword);
          if answer == Yes {
            AttemptsBounded(input, retries, true, script, afterAnswer, fromInput, upgradeV1);
          }
        } else if attempt.Err? && Retryable(attempt.error) {
          AttemptsBounded(input, retries - 1, false, script, afterPassword, fromInput, upgradeV1);
        }
      }
    }
  }

  // ---------------------------------------------------------------------
  // Without that assumption the upgrade question can come back forever

  const SOME_PASSWORD: string := "hunter2"

  /** Replies that answer 'y' to the upgrade question `rounds` times and then 'n'. */
  function YesRounds(rounds: nat): (script: seq<Reply>)
    ensures |script| == 2 * rounds + 2
  {
    if rounds == 0 then [Typed(SOME_PASSWORD), Typed("n")]
    else [Typed(SOME_PASSWORD), Typed("y")] + YesRounds(rounds - 1)
  }

  function AlwaysV1<Store>(): (o: Opener<Store>) {
    (masterPassword: string, input: Bytes) => Err(NeedUpgradeErrorFromV1)
  }

  lemma {:induction false} YesRoundsAt(rounds: nat, done: nat)
    requires done <= rounds
    ensures YesRounds(rounds)[2 * done] == Typed(SOME_PASSWORD)
    ensures YesRounds(rounds)[2 * done + 1] == Typed(if done < rounds then "y" else "n")
    decreases rounds
  {
    if done > 0 {
      YesRoundsAt(rounds - 1, done - 1);
    }
  }

  lemma AnswerOnFirstLine(script: seq<Reply>, pos: nat, line: string)
    requires pos < |script| && script[pos] == Typed(line)
    requires StartsWith(line, 'y') || StartsWith(line, 'n')
    ensures AskUpgrade(script, pos) == (if StartsWith(line, 'y') then Yes else No, pos + 1)
  {
  }

  lemma AlwaysV1Attempt<Store>(input: Bytes, masterPassword: string, forceUpgrade: bool)
    ensures GetPasswordStoreFromInput(input, masterPassword, forceUpgrade, AlwaysV1<Store>(), AlwaysV1<Store>())
         == Err(NeedUpgradeErrorFromV1)
  {
  }

  /** One round of the script: the password, then the answer at `2 * done + 1`. */
  lemma YesRoundStep<Store>(input: Bytes, rounds: nat, done: nat, forceUpgrade: bool)
    requires done <= rounds
    ensures var script := YesRounds(rounds);
            var run := Interactive(input, 1, forceUpgrade, script, 2 * done, AlwaysV1<Store>(), AlwaysV1<Store>());
            var forced := Interactive(input, 1, true, script, 2 * done + 2, AlwaysV1<Store>(), AlwaysV1<Store>());
            && (done < rounds ==> run.result == forced.result && run.attempts == forced.attempts + 1)
            && (done == rounds ==> run.result == Err(NoUpgradeError) && run.attempts == 1)
  {
    var script := YesRounds(rounds);
    YesRoundsAt(rounds, done);
    AlwaysV1Attempt<Store>(input, SOME_PASSWORD, forceUpgrade);
    if done < rounds {
      AnswerOnFirstLine(script, 2 * done + 1, "y");
    } else {
      AnswerOnFirstLine(script, 2 * done + 1, "n");
    }
  }

  lemma {:induction false} YesRoundsFrom<Store>(input: Bytes, rounds: nat, done: nat, forceUpgrade: bool)
    requires done <= rounds
    ensures var run := Interactive(input, 1, forceUpgrade, YesRounds(rounds), 2 * done, AlwaysV1<Store>(), AlwaysV1<Store>());
            run.result == Err(NoUpgradeError) && run.attempts == rounds - done + 1
    decreases rounds - done
  {
    YesRoundStep<Store>(input, rounds, done, forceUpgrade);
    if done < rounds {
      YesRoundsFrom<Store>(input, rounds, done + 1, true);
    }
  }

  /**
   * If the migration itself keeps reporting a version-1 file, one retry
   * allows any number of unlock attempts: every 'y' starts over with the
   * same budget.
   */
  lemma UnsettledUpgradeUnbounded<Store>(input: Bytes, rounds: nat)
    ensures Interactive(input, 1, false, YesRounds(rounds), 0, AlwaysV1<Store>(), AlwaysV1<Store>()).attempts
         == rounds + 1
  {
    YesRoundsFrom<Store>(input, rounds, 0, false);
  }

  // ---------------------------------------------------------------------
  // The flow as the program runs it, on the terminal handle

  /**
   * The `loop` over `read_line` that waits for a 'y' or an 'n' to the
   * upgrade question.
   */
  method ReadUpgradeAnswer(io: Console) returns (answer: UpgradeAnswer)
    requires io.Valid()
    modifies io`pos
    ensures io.Valid()
    ensures (answer, io.pos) == AskUpgrade(io.script, old(io.pos))
  {
    while true
      invariant io.Valid() && old(io.pos) <= io.pos
      invariant AskUpgrade(io.script, io.pos) == AskUpgrade(io.script, old(io.pos))
      decreases |io.script| - io.pos
    {
      var line := io.ReadLine();
      match line
      case Ok(text) =>
        if StartsWith(text, 'y') {
          return Yes;
        } else if StartsWith(text, 'n') {
          return No;
        }
      case Err(ioErr) =>
        return Unanswered(ioErr);
    }
  }

  /**
   * `get_password_store_from_input_interactive`. `retry` only selects a
   * message, which is not modelled.
   */
  method GetPasswordStoreFromInputInteractive<Store>(input: Bytes, retries: int, forceUpgrade: bool, retry: bool,
                                                     io: Console, fromInput: Opener<Store>, upgradeV1: Opener<Store>)
    returns (r: Result<Store, PasswordError>)
    requires io.Valid() && 0 <= retries
    modifies io`pos
    ensures io.Valid()
    ensures var run := Interactive(input, retries, forceUpgrade, io.script, old(io.pos), fromInput, upgradeV1);
            r == run.result && io.pos == run.next
    decreases |io.script| - io.pos
  {
    if retries == 0 {
      return Err(CorruptionLikelyError);
    }
    var password := io.PromptPassword();
    if password.Err? {
      return Err(Io(password.error));
    }
    var attempt := GetPasswordStoreFromInput(input, password.value, forceUpgrade, fromInput, upgradeV1);
    if attempt.Ok? {
      return attempt;
    } else if attempt.error == NeedUpgradeErrorFromV1 {
      var answer := ReadUpgradeAnswer(io);
      match answer
      case Yes =>
        r := GetPasswordStoreFromInputInteractive(input, retries, true, false, io, fromInput, upgradeV1);
      case No =>
        return Err(NoUpgradeError);
      case Unanswered(ioErr) =>
        return Err(Io(ioErr));
    } else if Retryable(attempt.error) {
      r := GetPasswordStoreFromInputInteractive(input, retries - 1, false, true, io, fromInput, upgradeV1);
    } else {
      // CorruptionError, OutdatedRoosterBinaryError, Io
      return attempt;
    }
  }

  /**
   * `get_password_store`: reads the whole file (its outcome is `file`), runs
   * the interactive flow with three retries, and maps every failure to exit
   * code 1.
   */
  method GetPasswordStore<Store>(file: Result<Bytes, IoError>, io: Console,
                                 fromInput: Opener<Store>, upgradeV1: Opener<Store>)
    returns (r: Result<Store, int>)
    requires io.Valid()
    modifies io`pos
    ensures io.Valid()
    ensures r.Err? ==> r.error == FAILURE_EXIT_CODE
    ensures file.Err? ==> r.Err? && io.pos == old(io.pos)
    ensures file.Ok? ==>
              var run := Interactive(file.value, UNLOCK_RETRIES, false, io.script, old(io.pos), fromInput, upgradeV1);
              && io.pos == run.next
              && (r.Ok? <==> run.result.Ok?)
              && (r.Ok? ==> r.value == run.result.value)
  {
    if file.Err? {
      return Err(FAILURE_EXIT_CODE);
    }
    var store := GetPasswordStoreFromInputInteractive(file.value, UNLOCK_RETRIES, false, false, io, fromInput, upgradeV1);
    match store
    case Ok(s) => r := Ok(s);
    case Err(_) => r := Err(FAILURE_EXIT_CODE);
  }
}
