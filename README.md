# Rooster: argument validators and the unlock flow, in Dafny

Rooster is a command-line password manager. This project models two pieces
of its logic and proves properties about them.

- **Numeric argument validators** (`ArgValidators`, arg_validators.dfy).
  These are the clap value parsers `only_digits`, `validate_arg_usize`,
  `validate_arg_u8` and `validate_arg_u32`. `only_digits` is true when the
  argument holds a character that is not an ASCII digit, which is the
  opposite of what its name says. Such an argument is rejected with
  "The value must be made of digits". Any other argument goes to Rust's
  `str::parse` and then `unwrap`. `ArgOutcome` makes the panic an explicit
  outcome, `Panicked`. `ParseUnsigned` and `Accumulate` model Rust's
  unsigned parser, in the order in which it checks for a non-digit and for
  overflow.
- **Opening the password file** (`PasswordStore`, password_store.dfy).
  - `GetPasswordStoreFromInput` makes one unlock attempt. It may migrate a
    version-1 file.
  - The interactive flow asks for the master password. It retries within a
    budget, and it asks before migrating a version-1 file.
  - `Interactive` is the specification function of that flow. It works
    over a script of user replies (`Terminal.Reply`) and returns a `Run`:
    the result, the cursor after the replies it read, the number of unlock
    attempts and the number of attempts that failed with a retryable error.
  - The methods `GetPasswordStoreFromInputInteractive` and
    `GetPasswordStore` do the same work on a `Terminal.Console` object,
    whose cursor they move. They are proved equal to `Interactive`.
  - `PasswordStore::from_input` and `password::upgrade` are parameters of
    type `Opener`: functions from the master password and the file bytes
    to a store or a `PasswordError`. The store is a type parameter.
  - `Password.PasswordError` lists the variants the flow names. `Other`
    stands for every variant that only the catch-all arm handles.

Each call of the flow reads a reply before it calls itself, so the flow
always terminates on a finite script. The bound on the flow's length is a
separate question:
- `Interactive` has at most `retries` retryable failures (a postcondition).
- `GivesUpOnlyWhenRetriesExhausted`: the flow gives up with
  `CorruptionLikelyError` exactly when it has had `retries` such failures.
- A 'y' to the upgrade question starts over with the same budget. So the
  number of attempts is bounded only if `password::upgrade` never answers
  `NeedUpgradeErrorFromV1` itself (`UpgradeSettles`). Under that
  assumption `AttemptsBounded` proves at most `2 * retries` attempts.
- `UnsettledUpgradeUnbounded` shows that without the assumption one retry
  allows any number of attempts.

Notes on the code:
- `CorruptionLikelyError` and `NoUpgradeError` may come back from
  `from_input` or `upgrade`. The interactive flow does not name them, so
  its catch-all arm retries on them (`Retryable`). When the flow itself
  ends with one of them, it made that error: `CorruptionLikelyError` when
  the budget is spent, `NoUpgradeError` on an 'n' answer.
- The answer to the upgrade question is tested with `starts_with('y')`
  and `starts_with('n')`. "Y", "N" and an empty line are asked again
  (`UnclearRepliesSkipped`).

## Model

| member | source | states |
|---|---|---|
| ArgValidators.OnlyDigits | src/lib.rs:43-48 | true exactly when some character is not an ASCII digit (the opposite of the name), so false on the empty string |
| ArgValidators.ParseUnsigned | src/lib.rs:54 | Rust's `parse::<uN>()`: `Empty` exactly for the empty string; a parsed value never exceeds the type's maximum |
| ArgValidators.Accumulate | src/lib.rs:54 | Rust's digit loop: never reports `Empty`, reports `InvalidDigit` only for a non-digit, and returns a value between the accumulator and the maximum |
| ArgValidators.AccumulateIsDecimal | src/lib.rs:54 | Rust's digit loop returns the decimal value of the digits, or `PosOverflow` exactly when that value exceeds the maximum |
| ArgValidators.ParseDigitString | src/lib.rs:54 | a non-empty digit string parses to its decimal value when it fits, else overflows |
| ArgValidators.ValidateArg | src/lib.rs:50-69 | rejected, with "The value must be made of digits", exactly when `only_digits` holds; an accepted value fits the type |
| ArgValidators.ValidateArgUsize | src/lib.rs:50-55 | same rejection rule; accepted values fit a 64-bit `usize` |
| ArgValidators.ValidateArgU8 | src/lib.rs:57-62 | same rejection rule; accepted values are at most 255 |
| ArgValidators.ValidateArgU32 | src/lib.rs:64-69 | same rejection rule; accepted values are at most 4294967295 |
| ArgValidators.ValidateArgCases | src/lib.rs:50-69 | a non-digit argument is rejected; "" panics with `Empty`; a non-empty digit string gives its decimal value if it fits and panics with `PosOverflow` otherwise |
| ArgValidators.SharedRejectionRule | src/lib.rs:50-69 | the three validators reject the same arguments: those with a non-digit character |
| ArgValidators.RoundTrip | src/lib.rs:50-69 | validating the decimal rendering of any value up to the maximum gives that value back |
| ArgValidators.U8RoundTrip | src/lib.rs:57-62 | `validate_arg_u8(n.to_string())` is `Ok(n)` for every n in 0..=255 |
| ArgValidators.U32RoundTrip | src/lib.rs:64-69 | `validate_arg_u32(n.to_string())` is `Ok(n)` for every `u32` |
| ArgValidators.UsizeRoundTrip | src/lib.rs:50-55 | `validate_arg_usize(n.to_string())` is `Ok(n)` for every 64-bit `usize` |
| ArgValidators.DecimalRoundTrip | src/lib.rs:54 | reading back the decimal rendering of n gives n |
| ArgValidators.LeadingZerosIgnored | src/lib.rs:50-69 | leading zeros do not change how a non-empty argument is validated |
| ArgValidators.LeadingZerosExample | src/lib.rs:57-62 | `validate_arg_u8("007")` is `Ok(7)` |
| ArgValidators.DefaultLengthAccepted | src/lib.rs:205-211 | the default `--length` "32" passes `validate_arg_usize` as 32 |
| ArgValidators.EmptyArgumentPanics | src/lib.rs:50-69 | all three validators panic on "" instead of returning `Err` |
| ArgValidators.OverflowingArgumentPanics | src/lib.rs:50-69 | a digit string whose value exceeds the maximum panics with `PosOverflow` instead of returning `Err` |
| ArgValidators.U8OverflowExample | src/lib.rs:57-62 | `validate_arg_u8("256")` panics |
| ArgValidators.ValidateArgChecked | src/lib.rs:50-69 | the corrected validator never panics and accepts exactly the non-empty digit strings whose value fits, with that value |
| ArgValidators.CheckedAgreesWhereNoPanic | src/lib.rs:50-69 | wherever the validator as written does not panic, the corrected one gives the same outcome |
| PasswordStore.GetPasswordStoreFromInput | src/password_store.rs:121-156 | every outcome of `from_input` except `NeedUpgradeErrorFromV1` is returned unchanged; for a version-1 file the result is `NeedUpgradeErrorFromV1` without `upgrade`, and exactly `password::upgrade`'s result with it |
| PasswordStore.UpgradeConsultedOnlyWhenAsked | src/password_store.rs:137-150 | `password::upgrade` is not consulted unless the file is version 1 and the upgrade was requested |
| PasswordStore.UpgradeRequestedIsFinal | src/password_store.rs:137-150 | with the upgrade requested, an attempt reports `NeedUpgradeErrorFromV1` only if `upgrade` does |
| PasswordStore.AskUpgrade | src/password_store.rs:86-113 | the upgrade question ends at the first reply starting with 'y' (yes) or 'n' (no), or at a read error; every reply before it answered neither way |
| PasswordStore.ReadUpgradeAnswer | src/password_store.rs:86-113 | the `read_line` loop returns the answer `AskUpgrade` gives and leaves the cursor after the reply that settled it |
| PasswordStore.UnclearRepliesSkipped | src/password_store.rs:97-102 | replies that start with neither 'y' nor 'n' (an empty line, "Y") are skipped and the question is asked again |
| PasswordStore.Interactive | src/password_store.rs:19-119 | with no retries left: `CorruptionLikelyError`, no reply read, no attempt; at most `retries` retryable failures; neither a catch-all error nor `NeedUpgradeErrorFromV1` ever escapes, since the upgrade question always turns the latter into a retry, `NoUpgradeError` or `Io` |
| PasswordStore.PasswordUnreadable | src/password_store.rs:42-54 | a master password that cannot be read ends the flow with `Io` at once, with no attempt and no retry spent |
| PasswordStore.TerminalErrorsNotRetried | src/password_store.rs:60-81 | `CorruptionError`, `OutdatedRoosterBinaryError` and `Io` from the attempt are returned unchanged after one attempt |
| PasswordStore.CatchAllRetries | src/password_store.rs:115-117 | any other error starts over with one retry less and without forcing the upgrade, counting one failure |
| PasswordStore.UpgradeQuestion | src/password_store.rs:82-113 | on a version-1 file, 'y' starts over with the same retries and the upgrade forced, 'n' gives `NoUpgradeError`, and a read error gives `Io` |
| PasswordStore.GivesUpOnlyWhenRetriesExhausted | src/password_store.rs:26-33 | the flow ends with `CorruptionLikelyError` exactly when `retries` retryable failures have happened |
| PasswordStore.AttemptsBounded | src/password_store.rs:19-119 | if `upgrade` never reports `NeedUpgradeErrorFromV1`, the flow makes at most `2 * retries` unlock attempts, and fewer than that once the upgrade is forced |
| PasswordStore.UnsettledUpgradeUnbounded | src/password_store.rs:89-93 | if `upgrade` keeps reporting a version-1 file, one retry allows any number of unlock attempts |
| PasswordStore.GetPasswordStoreFromInputInteractive | src/password_store.rs:19-119 | the method, reading replies from the terminal, returns `Interactive`'s result and leaves the cursor where `Interactive` ends |
| PasswordStore.GetPasswordStore | src/password_store.rs:8-17 | a failed file read gives exit code 1 without a prompt; otherwise the flow runs with 3 retries and no forced upgrade, and every failure becomes exit code 1 |
| Terminal.NextReply | src/user_input.rs:5-7 | reading a reply moves the cursor by one and returns the typed text or the read error; past the end of the replies it fails with `UnexpectedEof` |
| Terminal.Console.PromptPassword | src/user_input.rs:5-7 | the master-password prompt consumes the next reply |
| Terminal.Console.ReadLine | src/password_store.rs:87 | `read_line` consumes the next reply |

## Left out

- `main_with_args`, `open_password_file`, `create_password_file` and `sync_password_store` (src/lib.rs) are not modelled. They build the command line, dispatch subcommands and open or sync files: command-line and I/O plumbing.
- The `password` and `aes` modules are not part of this model. This covers the container format, key derivation, encryption, `v2::PasswordStore` and `password::upgrade`. `from_input` and `upgrade` are parameters, and the store is a type parameter.
- SafeVec/SafeString scrubbing and cloning are not modelled. They come from a foreign library.
- The messages printed through `io.error` are not modelled. The `retry` flag only chooses one of those messages, so it has no effect in the model.
- src/commands/add.rs, src/gui/*, src/util.rs are not modelled. They are user-interface and I/O code.
- Terminal.NextReply: a script that has run out reads as an `UnexpectedEof` error. What the real terminal does at end of input is decided by the rclio library, which is not part of this model.
- PasswordStore.GetPasswordStore: the file read is a parameter of type `Result<Bytes, IoError>`.
- PasswordStore.Interactive: `retries` is an `i32` in the code, and the model requires it to be at least 0. With a negative start the `retries == 0` test is never met, and repeated retryable errors recurse until the `i32` wraps or the stack runs out. Neither is modelled. The only caller passes 3.
- PasswordStore.GetPasswordStoreFromInputInteractive: requires `retries` to be at least 0, for the same reason as `Interactive`.
- ArgValidators.ValidateArgUsize: `usize` is taken to be 64 bits wide. The maximum on a 32-bit target is not modelled.

## Findings

| source | as written | input that shows it | evidently intended | confidence | as-written member | corrected member |
|---|---|---|---|---|---|---|
| src/lib.rs:50-69 | the empty argument has no non-digit character. It passes the `only_digits` test, and `parse().unwrap()` panics | `""` for any of the three validators, e.g. `--length ""` | reject it with an `Err` message, like any other bad value | medium, not executed | ArgValidators.EmptyArgumentPanics | ArgValidators.ValidateArgChecked |
| src/lib.rs:57-62 | a digit string larger than the type's maximum passes the digit test, and `parse().unwrap()` panics with an overflow | `"256"` for `validate_arg_u8` | reject it with an `Err` message | medium, not executed | ArgValidators.U8OverflowExample | ArgValidators.ValidateArgChecked |
