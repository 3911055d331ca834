# xl domain lifecycle, save-file and migration core — a Dafny model

This project models the core of `xl`, the Xen toolstack's command-line tool
(`tools/xl/xl_cmdimpl.c`), and proves properties of that model:

- **The save-file container.** `save_domain_core_writeconfig` writes a
  48-byte header and then the configuration, with the platform's save stream
  after them. The restoring half of `create_domain` reads that back. It checks
  the magic, the byte-order sentinel and the mandatory flags, then extracts
  the configuration and picks the stream version (module `SaveFile`, with
  byte-level helpers in `Bytes`).
- **The host-wide creation lock.** `acquire_lock` and `release_lock`,
  including the retry on `EINTR` (module `Lock`).
- **Memory reclaim before a build.** `freemem`: up to three rounds of reading
  free memory and asking dom0 to shrink (module `Memory`).
- **Domain death.** `handle_domain_death` maps a shutdown reason through the
  `on_poweroff`/`on_reboot`/`on_crash`/`on_watchdog`/`on_soft_reset` policy to
  a restart decision (module `Restart`).
- **create_domain as a state machine.** Choosing the configuration, one pass
  through `start:` under the lock, and the event loop. The loop waits with
  `domain_wait_event` and then restarts, renames or exits (modules
  `Lifecycle` and `Events`).
- **The live-migration handshake.** The sender (`migrate_domain` with
  `migrate_do_preamble`) and the receiver (`migrate_receive`) exchange fixed
  messages and read them with `migrate_read_fixedmessage` (modules
  `Messages`, `Sender`, `Receiver`). Module `Handshake` connects the two
  sides: each reads what the other writes. For a plain (not Remus or COLO)
  migration whose restore reads exactly the stream the suspend wrote, it
  proves that at most one copy of the domain runs afterwards, whichever step
  fails.
- **Two pieces of listing output.** The shutdown-reason letter of `xl list`
  and the day/hour/minute/second split of `uptime_to_string` (module
  `Listing`).

The platform (libxl) is not modelled. Every answer it would give is a value
in an "oracle" record, or a function of the round number:

- the result of each `fcntl`, `open`, create, restore, rename, unpause or
  write call;
- free memory per round;
- the bytes the suspend writes.

Bytes are a `newtype byte = x: int | 0 <= x < 0x100` rather than `bv8`. This
keeps the arithmetic of the little-endian `uint32_t` fields in plain integer
reasoning. Wrap-around is written out where the source relies on it:
`ShrinkDelta`, `AsCInt`, `Int32`, `ULong` and `StatusByte`.

Where the comments and the code disagree, the model follows the code. The
header comment says unknown *optional* flags reject a restore, but the reader
never looks at `optional_flags` (`SaveFile.OptionalFlagsIgnored`).

## Model

| member | source | states |
|---|---|---|
| Bytes.U32RoundTrip | tools/xl/xl_cmdimpl.c:80-87 | reading back the four bytes a `uint32_t` header field is stored as gives the value that was stored |
| Bytes.BytesRoundTrip | tools/xl/xl_cmdimpl.c:80-87 | any four header bytes are the stored image of the `uint32_t` they are read as, so every byte pattern is a possible field value |
| SaveFile.HeaderRoundTrip | tools/xl/xl_cmdimpl.c:80-87 | overlaying `struct save_file_header` on the 48 bytes written for a header gives back the magic and all four fields |
| SaveFile.UnknownMandatory | tools/xl/xl_cmdimpl.c:741 | the bits outside JSON and STREAMv2 are the flags with their two low bits cleared (the largest multiple of 4 not above them), and they are zero exactly when the flags are below 4 |
| SaveFile.WriteConfig | tools/xl/xl_cmdimpl.c:2144-2187 | the writer's output: the magic at offset 0, then the byte-order sentinel. STREAMv2 is always set; JSON is set iff the config is nonempty; no unknown mandatory flag is set. Optional flags are 0. `optional_data_len` counts every byte after the header; then come `config_len` and the config |
| SaveFile.StreamVersion | tools/xl/xl_cmdimpl.c:898-899 | the restore is told stream version 2 when STREAMv2 is set, otherwise 1 |
| SaveFile.CheckHeader | tools/xl/xl_cmdimpl.c:726-747 | a header passes iff its magic, its byte-order sentinel and its mandatory flags (only JSON and STREAMv2) are all right. The checks run in that order: a wrong magic is reported as such whatever follows, a wrong byte order only behind a good magic, and unknown mandatory bits only behind both, with those bits in the error |
| SaveFile.ParseOptionalData | tools/xl/xl_cmdimpl.c:748-779 | an empty block means "no config". Otherwise it fails as truncated iff fewer than 4 bytes, or fewer than `config_len` bytes after them, remain. On success a nonempty block always yields a config, and it is exactly the `config_len` bytes after the length word; any bytes after it are skipped |
| SaveFile.Load | tools/xl/xl_cmdimpl.c:701-779 | fewer than 48 bytes is a short header. "Truncated" is reported only behind a header that passed and an optional block that was read in full. A successful load parsed the first 48 bytes and passed the header checks. The stream held all `optional_data_len` bytes, and the platform stream starts right after them. The config returned is what the optional data block parses to. A load succeeds exactly when the header passes, the whole block is present and the block parses |
| SaveFile.RoundTrip | tools/xl/xl_cmdimpl.c:701-779 | reading what the writer wrote, followed by any platform stream, gives back the writer's header and config and leaves the platform stream untouched. JSON is set iff the config is nonempty, and the stream version is 2 |
| SaveFile.RejectedBeforeOptionalData | tools/xl/xl_cmdimpl.c:726-747 | a header that fails a check is rejected with that check's error, as `ERROR_INVAL`, whatever bytes follow it |
| SaveFile.UnknownMandatoryRejected | tools/xl/xl_cmdimpl.c:741-747 | any mandatory bit beyond JSON and STREAMv2 refuses the restore and reports exactly the unknown bits |
| SaveFile.OptionalFlagsIgnored | tools/xl/xl_cmdimpl.c:726-779 | changing `optional_flags` changes neither whether a stream loads nor the config and platform stream it yields |
| SaveFile.ParseOptionalDataAsWritten | tools/xl/xl_cmdimpl.c:756-779 | with the signed comparison of `WITH_OPTDATA`, a length that passes the guard yet runs past the block can only be a `config_len` above `INT_MAX` |
| SaveFile.SignedConfigLenBypassesGuard | tools/xl/xl_cmdimpl.c:756-779 | a block that holds only `config_len` = 0x80000000 gets past the guard as written, with a copy length of -2^31; the corrected guard reports it truncated |
| Lock.Settle | tools/xl/xl_cmdimpl.c:184-186 | the retried `fcntl` settles on the first answer that is not `EINTR`; every earlier answer was `EINTR` |
| Lock.Acquire | tools/xl/xl_cmdimpl.c:161-194 | acquiring while held is refused with `ERROR_INVAL` and changes nothing. Success means the open, the close-on-exec and the settled `fcntl` all succeeded, and leaves the lock held. Only a failed open leaves xl believing it holds no lock. `ERROR_INVAL` means exactly that the lock was already held; a failed open, close-on-exec or `fcntl` is `ERROR_FAIL` |
| Lock.Release | tools/xl/xl_cmdimpl.c:196-223 | afterwards the lock is never held. Releasing an unheld lock is `ERROR_INVAL`. Success means the lock was held and the settled unlock succeeded |
| Lock.DoubleAcquireRefused | tools/xl/xl_cmdimpl.c:161-169 | a second acquire after a successful one, with no release in between, is refused and keeps the lock held |
| Lock.ReleaseThenAcquire | tools/xl/xl_cmdimpl.c:161-223 | after a release, whatever its result, an acquire whose calls succeed takes the lock again |
| Memory.ShrinkDelta | tools/xl/xl_cmdimpl.c:589 | the relative dom0 target is the (negative) shortfall free - need whenever that fits the `int64_t` parameter |
| Memory.OnePass | tools/xl/xl_cmdimpl.c:580-600 | one round ends "enough" iff free memory was read and covers the need. It ends "retry" iff it was read short and both the set-target and the wait succeeded. It reads first, and shrinks at most once, with the delta computed from that reading |
| Memory.Freemem | tools/xl/xl_cmdimpl.c:569-603 | with autoballooning off it succeeds without any call. Otherwise it succeeds iff the need is known and a reading within the three rounds covers it, that reading being the last call. At most three shrink requests are made, each following the reading it came from. Three short rounds in a row end in failure after 1+3·3 calls |
| Restart.ReasonOfCode | tools/xl/xl_cmdimpl.c:439-462 | codes 0..5 name the known shutdown reasons and every other code is an unknown reason; the code is recovered from the reason |
| Restart.Collapse | tools/xl/xl_cmdimpl.c:468-483 | after the dump, a coredump action acts as its plain counterpart; other actions are unchanged |
| Restart.HandleDomainDeath | tools/xl/xl_cmdimpl.c:432-517 | suspend leaves the domain alone and an unknown reason destroys it. Restart destroys it and asks for a restart; destroy destroys it. Preserve, rename and soft reset keep the domain id. The core is dumped iff the configured action is a coredump one. The configuration is reloaded iff the decision restarts |
| Restart.CoredumpCollapses | tools/xl/xl_cmdimpl.c:468-483 | dumping core changes nothing but the dump: the outcome is the plain action's |
| Restart.DecisionFollowsOwnSetting | tools/xl/xl_cmdimpl.c:439-462 | each shutdown reason consults only its own `on_*` setting: two policies that agree on it lead to the same decision, id, dump, reload and destroy |
| Restart.InvalidatedIffDestroyed | tools/xl/xl_cmdimpl.c:485-514 | the watched id is given up exactly when the domain is destroyed |
| Events.DomainWaitEvent | tools/xl/xl_cmdimpl.c:628-648 | the wait returns the first event for the watched domain, or the first nonzero rc; every answer before it was an event for another domain and was dropped. It waits forever iff every answer is for another domain |
| Lifecycle.SelectConfig | tools/xl/xl_cmdimpl.c:784-815 | a config file overrides the saved configuration and is never JSON; a file that cannot be read is `ERROR_FAIL`. On a fresh create, extra command-line text goes after the file's contents, between two newlines. It fails with `ERROR_FAIL` exactly when the result and its NUL would exceed `INT_MAX`. Without a file the saved config is used in its saved format, and having none is `ERROR_INVAL` |
| Lifecycle.RestoredConfigIsSaved | tools/xl/xl_cmdimpl.c:784-815 | restoring without a config file yields exactly the configuration the writer saved, as JSON iff it is nonempty |
| Lifecycle.SelectBringUp | tools/xl/xl_cmdimpl.c:891-921 | a pass restores iff restoring; otherwise it soft-resets iff a soft-reset id is pending, and that id is the domain reset; otherwise it creates a new domain |
| Lifecycle.ErrorOut | tools/xl/xl_cmdimpl.c:1096-1106 | the error exit returns the given code with the lock released, and destroys the domain iff its id is a valid guest id |
| Lifecycle.AfterLock | tools/xl/xl_cmdimpl.c:870-925 | after the lock: the lock ends released and a failure returns a negative code. freemem is asked only when no soft reset is pending. Success used the bring-up the session selects, clears the restoring flag and the pending soft reset. It watches the reset domain or the one created |
| Lifecycle.Start | tools/xl/xl_cmdimpl.c:863-925 | a pass through `start:` always ends with the lock released. A failure returns a negative code, a lock failure included. Success needed the lock, leaves no restore pending, and asks for memory iff no soft reset is pending |
| Lifecycle.StartAsWritten | tools/xl/xl_cmdimpl.c:866-868 | as written, a failed lock acquire returns whatever `ret` already held; otherwise the pass is `Start` |
| Lifecycle.LockFailureReportsSuccess | tools/xl/xl_cmdimpl.c:866-868 | on the first pass a lock file that cannot be opened makes create_domain return 0 as written, where the corrected pass returns `ERROR_FAIL` |
| Lifecycle.PreserveThenRestart | tools/xl/xl_cmdimpl.c:1020-1028 | the rename case restarts, with the watched id given up, iff preserving the old domain worked; otherwise xl exits with -1 |
| Lifecycle.AfterDeath | tools/xl/xl_cmdimpl.c:1015-1073 | the loop exits with 0 iff no restart was decided; an in-place restart goes back to `start:` unchanged |
| Lifecycle.RestartReentersClean | tools/xl/xl_cmdimpl.c:1015-1064 | every restart re-enters `start:` with no watched id, so the assertion there holds. It carries the old id as the pending soft reset iff the decision was a soft reset |
| Lifecycle.StartStep | tools/xl/xl_cmdimpl.c:966-968 | a pass leaves the lock released; the loop runs only when monitoring, watching the domain the pass brought up |
| Lifecycle.EventStep | tools/xl/xl_cmdimpl.c:1004-1093 | a failed wait ends with its rc and a death event ends with 0. Events that change nothing keep the loop running. Only a shutdown can send the loop back to `start:`. The lock is never touched |
| Lifecycle.RestartIsReady | tools/xl/xl_cmdimpl.c:1015-1064 | a running session that restarts comes back to `start:` holding no lock and watching nothing. The next pass creates afresh, or soft-resets the domain that shut down |
| Lifecycle.SoftResetKeepsDomid | tools/xl/xl_cmdimpl.c:913-919 | a soft reset brings the domain back under its own id and asks for no memory |
| Messages.LiteralFraming | tools/xl/xl_cmdimpl.c:58-65 | the banner, sent with `sizeof-1`, contains no NUL and ends at its newline; "ready", GO and the report, sent with `sizeof`, each end in a NUL that is their only zero byte |
| Messages.ReadFixed | tools/xl/xl_cmdimpl.c:2265-2283 | reading a fixed message succeeds iff the stream starts with exactly that message; what remains is the stream after it |
| Messages.ReadFixedWritten | tools/xl/xl_cmdimpl.c:2265-2283 | a message the peer wrote is read back and leaves what the peer wrote after it |
| Messages.ReadFixedEmpty | tools/xl/xl_cmdimpl.c:2265-2283 | a nonempty message cannot be read from a stream that has ended |
| Messages.ReadByte | tools/xl/xl_cmdimpl.c:2453-2456 | one byte is read iff the stream has one, leaving the rest |
| Sender.ExitStatus | tools/xl/xl_cmdimpl.c:2481-2509 | the sender exits with success only after a completed migration |
| Sender.AfterGo | tools/xl/xl_cmdimpl.c:2448-2496 | after GO, the migration completes iff the report is followed by status 0; the sender then destroys its copy. The local copy is resumed, after the rename back, exactly when a nonzero status is followed by the go-back. Anything else leaves the outcome undefined |
| Sender.AfterSuspend | tools/xl/xl_cmdimpl.c:2416-2496 | without "ready", or with a failed rename, the local copy is resumed and GO is never sent. Otherwise GO follows the banner, header, suspend, "ready" and rename. Resume happens iff resumed-at-sender or target-failed; destroy iff migrated |
| Sender.MigrateDomain | tools/xl/xl_cmdimpl.c:2373-2510 | nothing is sent iff there is no config, no banner or a failed header. The bytes sent are the writer's header, the domain stream and, after the rename, GO. Trying GO is the point of no return. A guest timeout is never resumed. The copy is destroyed iff migrated |
| Receiver.StatusByte | tools/xl/xl_cmdimpl.c:2638-2639 | the status byte is -rc modulo 256, and for a small rc it is zero iff rc is zero |
| Receiver.Restore | tools/xl/xl_cmdimpl.c:2545-2552 | the incoming domain exists only if the header loads, carries a configuration and the domain data fits; what follows the domain data is left to read |
| Receiver.AwaitGo | tools/xl/xl_cmdimpl.c:2611-2629 | rc is 0 iff GO arrived right after the domain data and the rename and unpause (when asked for) both worked; GO is read iff it arrived |
| Receiver.Notify | tools/xl/xl_cmdimpl.c:2631-2666 | the report comes first, then the status byte, nonzero iff rc is. The local copy is kept (running) iff rc is 0. On failure the go-back is the last step, right after the destroy. The assertion fails only when a nonzero rc is a multiple of 256 |
| Receiver.TakeOverAsSecondary | tools/xl/xl_cmdimpl.c:2554-2600 | on a Remus or COLO stream the secondary takes over without "ready" or GO; only the banner was sent. A COLO guest is already running; a Remus guest runs only if its unpause worked, and otherwise stays paused with exit status 1. A failed rename fails a COLO failover but not a Remus one |
| Receiver.MigrateReceive | tools/xl/xl_cmdimpl.c:2512-2667 | the banner goes out first. There is a copy iff the stream restored. "Ready" is sent only after the domain was created, never on a checkpointed stream. GO is accepted only right after the domain data. The status is nonzero iff the start failed. The go-back is sent only after a failure report, and as the step right after the destroy. On a checkpointed stream the copy runs as the secondary unless a Remus unpause failed |
| Handshake.ReadNext | tools/xl/xl_cmdimpl.c:2265-2283 | the sender reads the receiver's next message iff the receiver wrote it |
| Handshake.AfterGoOnReceiverOutput | tools/xl/xl_cmdimpl.c:2448-2496 | on the receiver's real output, the sender completes iff the status byte went out and was 0. It takes the domain back iff the go-back went out after a nonzero status |
| Handshake.AfterSuspendOnReceiverOutput | tools/xl/xl_cmdimpl.c:2416-2496 | on the receiver's real output, the sender says GO iff "ready" came and the rename away worked, and completes or takes the domain back accordingly |
| Handshake.SenderOnReceiverOutput | tools/xl/xl_cmdimpl.c:2373-2510 | for every count of receiver messages and every status byte, when the sender says GO, completes and takes the domain back |
| Handshake.RestoreLeavesTail | tools/xl/xl_cmdimpl.c:2545-2552 | the receiver restores exactly the sender's config and domain stream and leaves what the sender wrote after them |
| Handshake.AtMostOneCopy | tools/xl/xl_cmdimpl.c:2373-2667 | connected to each other, the receiver takes over only after GO with the sender never resuming, and the sender destroys its copy only after the receiver took over. The sender resumes after GO only once the receiver destroyed its copy |
| Handshake.HappyPath | tools/xl/xl_cmdimpl.c:2373-2667 | when every step works, the runs are connected, the sender exits with success, the receiver runs the domain, and the config arrives intact |
| Listing.ShutdownLetter | tools/xl/xl_cmdimpl.c:2026-2039 | a domain that is not shut down shows '-'; the letter is '?' iff the domain is shut down for an unknown reason |
| Listing.ReasonOfLetter | tools/xl/xl_cmdimpl.c:1996 | a letter that names a reason names a known one other than power-off |
| Listing.LetterNamesReason | tools/xl/xl_cmdimpl.c:2026-2039 | the letter names a reason iff the domain is shut down with code 1..5, and then names that reason. Power-off shows the same '-' as "not shut down" |
| Listing.Uptime | tools/xl/xl_cmdimpl.c:5405-5411 | the split has hours below 24 and minutes and seconds below 60, and adds back up to the uptime |
| Listing.UptimeUnique | tools/xl/xl_cmdimpl.c:5405-5411 | any split with those bounds that adds up to the uptime is this one |
| Listing.UptimeAsWritten | tools/xl/xl_cmdimpl.c:5405-5411 | the split as written, in `int` arithmetic, agrees with the intended one below 24856 days |
| Listing.UptimeAsWrittenInRange | tools/xl/xl_cmdimpl.c:5405-5407 | below 24856 days, neither the day count nor `day * 86400` overflows an `int` |
| Listing.UptimeOverflows | tools/xl/xl_cmdimpl.c:5405-5411 | at exactly 24856 days the split as written prints 1193046 hours, 71582816 minutes and 32 seconds instead of 0, 0 and 0 |

## Left out

- The libxl calls themselves are not modelled. This covers domain create, restore and soft reset, suspend, resume, rename, pause/unpause, destroy, core dump, memory queries and the event machinery. Their results are oracle parameters.
- libxl's error codes and the hypervisor's reserved domain ids come from headers that are not part of this model. Only the values used here are stated: `ERROR_FAIL` -3, `ERROR_INVAL` -6, `ERROR_GUEST_TIMEDOUT` -8 (module `Errors`), `DOMID_FIRST_RESERVED` 0x7FF0.
- SaveFile.Load: a short read of the header or of the optional data leaves through `CHK_ERRNOVAL`, defined in `xl.h`, which is not part of this model. Its return code is not stated.
- Parsing the configuration, both xl syntax and JSON, is left out. The configuration is an opaque byte string, and whether it names the domain is a flag.
- Process management is left out: `fork`, daemonising, the console and vncviewer children, `migration_child_report` and the ssh transport. The sender's and receiver's byte streams are parameters.
- Timing is left out: `sleep(2)` before a restart, the timestamped name and wall-clock read in `preserve_domain` (only its outcome is modelled), and `LOG`/`fprintf` output.
- The dry-run and debug printing of the configuration is left out, as are `paused` and console auto-connect. The renaming back to `common_domname` after a restart is left out too, because it touches only the configuration's name.
- Enabling the death and disk-eject watches is left out. A failure there ends the loop like a failed wait, which `Events.DomainWaitEvent` already covers. The disk-eject handler's cdrom insert is a no-op here.
- The restore source is left out: `migrate_fd` versus a file, and the `restore_fd_to_close` bookkeeping. The restored stream is a byte sequence.
- `xmalloc` is in `xl_utils.c`, which is not part of this model. An allocation of zero bytes for an empty configuration is taken to succeed.
- Handshake.AtMostOneCopy: stated for a plain migration only. A Remus or COLO stream is a failover, where the receiver takes over by design. The lemma also assumes the receiver's restore, when it succeeds, consumed exactly the bytes the sender's suspend wrote. The format of the domain stream is libxl's, so the model cannot derive this.
- A failed write is modelled as writing nothing. The writer exits straight after a failed write, so the reader sees the stream end either way. A partial write is not modelled.
- Lifecycle.SelectConfig: the overflow test compares in `size_t`, so extra text longer than `INT_MAX - 3` bytes would wrap the bound; the model compares mathematically and refuses it. Such text cannot come from a command line.
- Receiver.TakeOverAsSecondary: when the configuration names no domain, `migration_domname` (declared at line 2521 and set only at line 838) is never initialised. Whether the failover renames, and on a COLO stream whether `rc` is the rename's result or the domain id that `create_domain` returned, is then indeterminate. The model takes the domain id. A migration configuration always names the domain, so the case does not arise.
- Sender.MigrateDomain: `save_domain_core_begin` is not modelled; its result is the `config` parameter. The debug suspend flag and the migration child's rune are not modelled either.
- Lifecycle.StartStep: `daemonize` and `monitor` enter only as their disjunction, and a daemonising child's own exit path is left out.
- Memory.Freemem: the dom0 target is set as relative with `enforce` 0, and the wait is bounded by 10 seconds. Both calls' results are oracle answers per round.

## Findings

| source | as written | input that shows it | evidently intended | confidence | as-written member | corrected member |
|---|---|---|---|---|---|---|
| tools/xl/xl_cmdimpl.c:866-868 | a failed `acquire_lock` jumps to `error_out` without setting `ret`, so the first pass returns 0 | the lock file cannot be opened (`open` fails) on the first pass of `create_domain` | return the lock's error code, as every other failure in the pass does | not executed | Lifecycle.StartAsWritten | Lifecycle.Start |
| tools/xl/xl_cmdimpl.c:756-779 | `WITH_OPTDATA` compares the `int` `config_len` against a signed count of remaining bytes, so a `config_len` of 2^31 or more is negative and passes | optional data of exactly the four bytes 00 00 00 80 (`config_len` = 0x80000000) | reject any `config_len` larger than the bytes that remain, comparing as unsigned | not executed | SaveFile.ParseOptionalDataAsWritten | SaveFile.ParseOptionalData |
| tools/xl/xl_cmdimpl.c:5405-5411 | `day * 86400` is computed in `int`, which overflows from 24856 days on, so the hours, minutes and seconds come out wrong | an uptime of 24856 × 86400 seconds | the split of `Listing.Uptime`: 24856 days, 0 hours, 0 minutes, 0 seconds | not executed | Listing.UptimeAsWritten | Listing.Uptime |

The counterexamples are proved by `Lifecycle.LockFailureReportsSuccess`,
`SaveFile.SignedConfigLenBypassesGuard` and `Listing.UptimeOverflows`. The
rest of the model uses the corrected members.
