# A verified model of the Couchbase Fluent Bit image

The repository packages Fluent Bit for Couchbase: a supervisor in Go starts the log shipper, watches its
configuration and certificates and restarts it; a Lua filter redacts marked text in log messages with a
SHA-1 written in Lua; and a small parser flattens the configuration and counts its plugins to divide the
container's memory. This project models those four parts in Dafny and proves what they are for.
`dafny verify dfyconfig.toml` checks everything.

## SHA-1 and HMAC (lua/sha1)

Words are bit strings, most significant bit first, as in section 3.1 of FIPS 180-4; `Fips180.dfy` is the
standard's own text (functions, constants, schedule, rounds, padding, the fold over blocks). The Lua side
works on numbers, so `MachineOps.dfy` models the operators of Lua 5.3, of LuaJIT's BitOp library (signed
results) and of bit32, and `OpCache.dfy` and `WordOps.dfy` model the pure-Lua operators: rotation by `%`, `*`
and `/`, and 65536-entry tables for `and` and `xor`, filled in place by four nested loops at each doubling.

- `OpCache.MakeOpCache` writes the table of any single-bit operator over 2^k-bit numbers in increasing key
  order; `OpCache.TableMeaning` says that an entry is the operator applied bit by bit.
- All four back ends are values of one type, `BackEnds.Ops`. Each operator takes numbers that stand for
  words to a number that stands for the word the standard asks for. For BitOp "stands for" is congruence
  modulo 2^32, which is what makes its signed words correct: the sums of a round are reduced by a floored `%`.
- `Sha1.Sha1` is the whole of `sha1.sha1`, loops over arrays included: with every back end and for every
  string below 2^29 bytes it returns the hexadecimal digits of the SHA-1 of FIPS 180-4, and from 2^29 bytes
  on it fails, because the length field does not fit `string.char`. `Sha1.SumCorrect` bounds every
  partial sum of a round by 2^53, so that no Lua number is rounded there.
- `Fips180` also says in numbers and single bits what its definitions are: the constants are integer square
  roots, the functions a choice, an odd number of ones and at least two ones, a round a sum modulo 2^32.
  `KnownAnswer.DigestOfSheeps` computes the digest of one word, all eighty rounds of it, and it is the one that
  test/test-redaction.conf:34 expects; `BitVectors.dfy` relates words to the bit vectors used for that.
- `Messages` proves that the padding is that of section 5.1.1, that it can be undone and that it is injective.
- `Hmac.Hmac` equals the HMAC of section 2 of RFC 2104, and `hex_to_binary` undoes the printing of a digest.

## The supervisor (pkg/fluent/watcher.go)

`Supervisor.dfy` is a transition system: the supervisor loop, any number of stoppers (configuration watcher,
TLS watcher, shutdown), the mutex, the processes, and the restart timer under the channel rules before and
since Go 1.23. A step is one statement, or several that nobody else can tell apart; reads outside the mutex
are steps of their own. What the program does not determine is left open: whether a process can be started,
when it exits, when the timer fires, whether ten minutes went by. `Kill` is taken to fail only for a process
that has already exited. The step `Cancel` only sets the flag the loop looks at; the closing function's
`Stop` and `resetTimer` are those of one more stopper.

`SupervisorInvariant.dfy` proves an inductive invariant over all interleavings, and `SupervisorTheorems.dfy`
draws the conclusions: one running process at most, Wait never gives up a running process, backoff never
waits on a dead timer, a process that runs was started after every change whose stopper has left Stop, and
what the restart counter counts. `SupervisorProgress.dfy` adds that the supervisor always gets on: from every
reachable state, every run without new events reaches the next start, or after cancellation the end of the
loop, within a number of steps that the state determines.

`resetTimer` does not always return. `TimerResets.dfy` says exactly when it passes over its receive (timer.Stop
finds the timer running, or with the channels of Go 1.23 takes an unreceived tick back) and shows that nothing
can block it then. Otherwise it waits for a tick. Some run still lets it return, unless the state is stuck: the
program has been cancelled, the supervisor is past its last receive, and neither a running timer nor a tick nor
another pending reset is left. A stuck state stays stuck whatever anybody does, and no resetTimer gets past its
receive in it. `TimerResets.ShutdownMayHang` is a reachable one: at shutdown (pkg/fluent/watcher.go:242-246) the
supervisor can take the tick that both were waiting for, and the closing function's `resetTimer` then never
returns.

`RunDelays.dfy` is about the delays in every run, with any number of stoppers. Between two zeroings of the
counter the counts that backoff reads go up by one, so that the promised delays never decrease, stay between
one second and five minutes and have a closed sum. The first delay after a zeroing is the one second that
pkg/fluent/watcher.go:237-238 promises exactly if the zeroing did not fall between the reading of the counter and
its increment in backoff; if it did, the first delay is two seconds (`RunDelays.FirstDelay`), and
`RunDelays.ZeroedInBackoff` shows that it can. The comment at pkg/fluent/watcher.go:276-277 promises that a change
resets the backoff. If it comes while backoff waits, the timer is set to fire at once
(`TimerResets.CutsBackoffShort`). If Fluent Bit has been running since its last backoff, as a rule, the supervisor
first backs off with the old count, because resetTimer cannot zero the counter before the timer has run
(`RunDelays.OldCountFirst`).

`SupervisorHistory.dfy` says what the fields record of a run: cleanStart the outcome of the last attempt,
totalStarts the attempts, the timer the counts that were read. `SupervisorHistory.ChangeTakesEffect` puts a
change, the stopper called after it and the processes that run later into one statement.

`FluentConfig.dfy` holds the `Config` object with its fields and its methods statement by statement. Each
method does to the fields what the transition system does when only that party moves
(`FluentConfig.StartAlone` to `FluentConfig.ResetTimerAlone`), and whole turns of the supervisor loop stay
within the reachable states. Its delays in a crash loop are those that `RunDelays` has for consecutive counts.

`Backoff.dfy` computes the delay in 64-bit nanoseconds as the source does. The comment at
pkg/fluent/watcher.go:237-238 promises a delay capped at five minutes; this holds without exception only up to the
count 33. `Backoff.DelayExact` gives the exact set of counts for which it holds. For every other count the
product wraps to zero or below, and Fluent Bit is restarted at once.

## Redaction (lua/redaction.lua)

`Redaction.dfy` models the two substitutions as Lua's pattern matching performs them, with the greedy `/*`
that gives slashes back and the lazy `.-` that stops at the first closing tag. The structure of a text (gaps,
regions, tail) is defined on its own and proved unique; the output keeps every gap and the tail of the
lowered text, holds a digest in each region, and has the same structure when it is scanned again. This
holds for any hash that yields 40 lower-case hexadecimal digits and, in `Redaction.RedactWithSha1`, for SHA-1; the
examples in the comment at lua/redaction.lua:45-46 show 32 digits, which the code never writes.

## Configuration (pkg/common)

- `ConfigFlattener.dfy`: `BuildConfigFile` for every acyclic include graph. It fails exactly if a chain of
  includes leads to a missing file, and otherwise gives exactly the lines that chains of includes lead to, less
  comments and includes. What it builds builds to itself. `ConfigOrder.dfy`: each occurrence of such a line in
  the tree of includes is there once, in the order of a walk through the tree.
- `ConfigSections.dfy`: reading on from each head line gives the sections that one pass over the file gives.
- `PluginCounts.dfy`: outputs are counted once each, exactly if they have an active match line. The comment
  at pkg/common/parser.go:129-131 promises the number of enabled inputs; the loop gives it exactly if every
  input section has a memory limit line or consists of its head line only, and else a larger number
  (`PluginCounts.CountedTwice` is the smallest such file). findNextPrefix also gives up at a head line, which
  its comment does not say.
- `MemLimits.dfy`: the limits written to the environment fit the container's memory, with the counts as the
  parser produces them. `Float32.dfy` has the float32 arithmetic of the factor 1.2: rounding to 24 significant
  bits, ties to even.

## Model

| member | source | states |
|---|---|---|
| OpCache.MakeOpCache | lua/sha1/pure_lua_ops.lua:28-80 | for every width 2^k and every single-bit operator the cache has exactly the keys 0 to 4^bits - 1, written in increasing order, each with the operator's value |
| OpCache.Combine | lua/sha1/pure_lua_ops.lua:61-77 | the four hoisted loops build the table of doubled width from the table of half width |
| OpCache.EntriesAssembled | lua/sha1/pure_lua_ops.lua:46-59 | the formula of the reference loop in the comment gives the same entries |
| OpCache.TableMeaning | lua/sha1/pure_lua_ops.lua:25-27 | the entry at a * 2^bits + b is the operator applied to a and b bit by bit |
| OpCache.TableBits | lua/sha1/pure_lua_ops.lua:25-80 | in numbers: for a and b below 2^bits, bit k of the entry at a * 2^bits + b is the operator of bit k of a and bit k of b |
| OpCache.TableKeys | lua/sha1/pure_lua_ops.lua:28-80 | the keys are the numbers below 4^bits and no others |
| OpCache.LoadByteTables | lua/sha1/pure_lua_ops.lua:82-83 | the two byte tables hold bitwise and and xor for all 65536 pairs |
| WordOps.PureLrotCorrect | lua/sha1/pure_lua_ops.lua:8-13 | for every word and every shift up to 32 the arithmetic form is the left rotation of FIPS 180-4 |
| WordOps.PureLrotExact | lua/sha1/pure_lua_ops.lua:8-13 | every division in it is exact and every intermediate is an integer below 2^32 |
| WordOps.PureLrotCompose | lua/sha1/pure_lua_ops.lua:8-13 | rotations compose by adding the shifts modulo 32 |
| WordOps.SplitOctets | lua/sha1/common.lua:9-17 | uint32_to_bytes gives the four octets of a word |
| WordOps.JoinOctets | lua/sha1/common.lua:4-6 | bytes_to_uint32 gives the word of four octets |
| Messages.SplitThenJoin | lua/sha1/common.lua:4-17 | merging the four bytes of a number gives the number back |
| WordOps.TernaryByteCorrect | lua/sha1/pure_lua_ops.lua:121-127 | the byte sum in Ch is at most 255 and equals the bitwise choice |
| WordOps.MajorityByteCorrect | lua/sha1/pure_lua_ops.lua:135-141 | the byte sum in Maj is at most 255 and equals the bitwise majority |
| WordOps.PureXor3Correct | lua/sha1/pure_lua_ops.lua:89-100 | the nested table reads give Parity of three words |
| WordOps.PureXor4Correct | lua/sha1/pure_lua_ops.lua:102-114 | the nested table reads give the xor of four words |
| WordOps.PureTernaryCorrect | lua/sha1/pure_lua_ops.lua:116-128 | the table form gives Ch of FIPS 180-4 |
| WordOps.PureMajorityCorrect | lua/sha1/pure_lua_ops.lua:130-142 | the table form gives Maj of FIPS 180-4 |
| MachineOps.LuaRotate | lua/sha1/lua53_ops.lua:3-5 | shifting, masking and or-ing 64-bit integers rotates a 32-bit word |
| MachineOps.BitOnWords | lua/sha1/bit_ops.lua:5-7 | on any representatives modulo 2^32 the signed results of BitOp represent the bitwise result |
| MachineOps.RotateOnWords | lua/sha1/bit_ops.lua:9 | the same for rotation |
| BackEnds.Ops.LrotCorrect | lua/sha1/bit_ops.lua:9 | every back end's rotation stands for the rotated word; for BitOp modulo 2^32 |
| BackEnds.Ops.Xor3Correct | lua/sha1/bit32_ops.lua:11 | every back end's xor of three numbers stands for Parity |
| BackEnds.Ops.Xor4Correct | lua/sha1/bit32_ops.lua:12 | every back end's xor of four numbers stands for the xor of the words |
| BackEnds.Ops.TernaryCorrect | lua/sha1/bit_ops.lua:14-17 | every back end's ternary stands for Ch, so that all four agree |
| BackEnds.Ops.MajorityCorrect | lua/sha1/bit_ops.lua:19-22 | every back end's majority stands for Maj, so that all four agree |
| BackEnds.ByteXorCorrect | lua/sha1/lua53_ops.lua:7-9 | byte_xor of two bytes is their xor, a byte, with every back end |
| BackEnds.ChooseOps | lua/sha1/init.lua:41-51 | which back end is chosen, and that it is ready for use |
| Fips180.ZeroBitsLeast | lua/sha1/init.lua:81-84 | the padding of the standard takes the least number of zero bits that fills the blocks |
| Fips180.ConstantsAreRoots | lua/sha1/init.lua:132-137 | the constant of rounds 0-19, 20-39, 40-59 and 60-79 is the integer square root of n * 2^60 for n = 2, 3, 5 and 10 |
| Fips180.FunctionsBitwise | lua/sha1/init.lua:129-137 | bit by bit, the function of rounds 0-19 is a choice, of 20-39 and 60-79 an odd number of ones, of 40-59 at least two ones |
| Fips180.ScheduleBits | lua/sha1/init.lua:106-115 | bit by bit, the first sixteen words are those of the block, and each later one is the xor of four before it, rotated by one |
| Fips180.RoundMeaning | lua/sha1/init.lua:126-148 | a round adds five words modulo 2^32, with a rotated by 5, and moves the others along, with b rotated by 30 |
| Fips180.RotlBits | lua/sha1/pure_lua_ops.lua:8-13 | bit i of a word rotated by n is bit i + n of the word, modulo 32 |
| Fips180.RoundsMeaning | lua/sha1/init.lua:117-149 | the rounds follow one another, the first from the hash value before the block |
| Fips180.CompressMeaning | lua/sha1/init.lua:117-156 | the rounds of a block start from the hash value before it, to which their result is added modulo 2^32 |
| Fips180.HashNext | lua/sha1/init.lua:93-157 | the blocks of 512 bits enter one after the other, each from the hash value before |
| Fips180.PadMeaning | lua/sha1/init.lua:77-91 | the padded message is the message, a one, zeros, and the length in 64 bits, in as few blocks of 512 bits as possible |
| Messages.PadMessageCorrect | lua/sha1/init.lua:77-91 | padding succeeds exactly below 2^29 bytes and gives the bits that section 5.1.1 of FIPS 180-4 asks for |
| Messages.PaddedLength | lua/sha1/init.lua:81-91 | the padded length is the least multiple of 64 that leaves room for nine more bytes |
| Messages.UnpadPad | lua/sha1/init.lua:77-91 | the message can be recovered from the padded one by its length field |
| Messages.PadInjective | lua/sha1/init.lua:77-91 | different messages have different paddings |
| Sha1.LoadChunk | lua/sha1/init.lua:105-115 | the array holds the message schedule of the chunk's block |
| Sha1.ExtendWord | lua/sha1/init.lua:114 | one more word of the schedule |
| Sha1.SumCorrect | lua/sha1/init.lua:143 | the sum of a round stays below 2^53 in magnitude, and reduced modulo 2^32 it is the sum of the words, for signed words too |
| Sha1.RoundFunction | lua/sha1/init.lua:126-141 | the function and the constant of round i are those of FIPS 180-4 |
| Sha1.OneRound | lua/sha1/init.lua:126-148 | the updated a to e stand for the standard's round |
| Sha1.MainLoop | lua/sha1/init.lua:117-149 | eighty rounds |
| Sha1.ProcessChunk | lua/sha1/init.lua:104-156 | one chunk takes h0 to h4 to exactly the next intermediate hash value |
| Sha1.ProcessChunks | lua/sha1/init.lua:93-157 | all chunks give the hash value of the padded message |
| Sha1.Sha1 | lua/sha1/init.lua:76-160 | with every back end: the 40 hexadecimal digits of the SHA-1 of every string below 2^29 bytes, and failure for all others |
| KnownAnswer.DigestOfSheeps | test/test-redaction.conf:34 | the SHA-1 of the word sheeps is the digest that the repository's own configuration expects |
| Hmac.HexRoundTrip | lua/sha1/init.lua:69-73 | hex_to_binary of the digits of a number gives its bytes |
| Hmac.DigestRoundTrip | lua/sha1/init.lua:69-73 | hex_to_binary undoes the printing of a digest |
| Hmac.Binary | lua/sha1/init.lua:162-164 | the binary form is the 20 bytes of the SHA-1, when there is one |
| Hmac.LoadXorTables | lua/sha1/init.lua:166-173 | both tables map every byte to its xor with the constant |
| Hmac.SubstituteBits | lua/sha1/init.lua:183-184 | substituting a key byte by byte is the xor with the repeated constant |
| Hmac.PaddedKey | lua/sha1/init.lua:183-184 | substituting and then filling up with the constant is filling up with zeros and then the xor with the pad |
| Hmac.MessageMeaning | lua/sha1/init.lua:175-187 | bit by bit: a key of at most 64 bytes is followed by zeros and xor-ed with 00110110 over and over before the text, and with 01011100 before the inner digest |
| Hmac.LongKey | lua/sha1/init.lua:179-181 | a longer key counts as its digest |
| Hmac.Hmac | lua/sha1/init.lua:178-187 | the HMAC of section 2 of RFC 2104 for every key and text, long keys included; there is a result exactly within the length bounds |
| SupervisorInvariant.InitInv | pkg/fluent/watcher.go:54-69 | the invariant holds of the new Config, whose fields are as stated, with the timer about to fire |
| SupervisorInvariant.StepInv | pkg/fluent/watcher.go:85-248 | every step of every party keeps the invariant |
| SupervisorInvariant.ReachableInv | pkg/fluent/watcher.go:85-248 | the invariant holds after every run with any number of stoppers |
| SupervisorTheorems.AtMostOneRunning | pkg/fluent/watcher.go:85-201 | at most one process is alive and not killed, and every process other than that of fb.cmd is dead or killed |
| SupervisorTheorems.WaitIsSafe | pkg/fluent/watcher.go:133-159 | when Wait clears fb.cmd no process is left running, also on the path that does not wait for it; and its unlocked reads never find a nil command |
| SupervisorTheorems.LockWaitsForKill | pkg/fluent/watcher.go:156 | if Wait gets to the mutex before the process was killed, a stopper holds the mutex with the kill ahead of it |
| SupervisorTheorems.TimerNeverDead | pkg/fluent/watcher.go:161-217 | while backoff waits the timer is armed, or its tick is there, or a stopper is about to re-arm it |
| SupervisorTheorems.RestartIsFresh | pkg/fluent/watcher.go:182-201 | at the end of Stop nothing is running, and whatever runs later was started later, on a configuration no older than the event |
| SupervisorTheorems.RunningIsFresh | pkg/fluent/watcher.go:182-217 | a running process was started after every change whose Stop has ended |
| SupervisorTheorems.CanReach | pkg/fluent/watcher.go:224-241 | from every state that keeps the invariant some run leads on to the next start, the next arming of the timer or the top of the loop, as long as shutdown does not come in between |
| SupervisorProgress.AlwaysArrives | pkg/fluent/watcher.go:224-241 | from every reachable state, every run without new events gets to the next start, or after cancellation to the end of the loop, within as many steps as the measure of the state; a run that has not got there can go on |
| SupervisorProgress.StepLowers | pkg/fluent/watcher.go:85-248 | every step that is no new event lowers the measure |
| SupervisorTheorems.CounterCounts | pkg/fluent/watcher.go:152-217 | over every run restartTimes is the number of backoffs since its last zeroing |
| RunDelays.CounterSinceZeroing | pkg/fluent/watcher.go:152-217 | every run can be cut after its last zeroing, and restartTimes is the number of backoffs that end in the second part |
| TimerResets.PassesOverDrain | pkg/fluent/watcher.go:208-211 | resetTimer passes over its receive exactly if timer.Stop finds the timer running, or takes back an unreceived tick under the rules of Go 1.23 |
| TimerResets.NeverBlockedAfter | pkg/fluent/watcher.go:213-216 | past the receive it can always go on, whatever the others do in any number of steps |
| TimerResets.StuckForEver | pkg/fluent/watcher.go:203-246 | a stuck state stays stuck in every run, and no resetTimer, begun before or later, gets past its receive |
| TimerResets.ReturnsExactly | pkg/fluent/watcher.go:203-217 | in every reachable state a resetTimer that was called can still return exactly if it is past the receive or the state is not stuck |
| TimerResets.ResetTimerMayWait | pkg/fluent/watcher.go:208-211 | a reachable state, under both channel rules, in which resetTimer waits on a timer that is not running; some run still ends the wait |
| TimerResets.ShutdownMayHang | pkg/fluent/watcher.go:242-246 | a reachable state after shutdown, under both channel rules, from which no run lets resetTimer return |
| TimerResets.TickMayBeTaken | pkg/fluent/watcher.go:209-210 | with a buffered channel a tick that is there when timer.Stop is called may be taken by the supervisor before the receive |
| RunDelays.CountsConsecutive | pkg/fluent/watcher.go:161-217 | over every run without a zeroing, with any number of stoppers, the counts that backoff reads are consecutive |
| RunDelays.DelaysOverRun | pkg/fluent/watcher.go:161-217 | over every such run the promised delays never decrease, lie between one second and five minutes and add up to a difference of totals; the timer is armed with exactly these up to the count 33 |
| RunDelays.DelaysFromZero | pkg/fluent/watcher.go:161-217 | from a zeroed counter outside backoff n promised delays add up to 2^n - 1 seconds for n up to 9, and to 511 + 300 (n - 9) seconds after that |
| RunDelays.FirstDelay | pkg/fluent/watcher.go:152-179 | the first delay after a zeroing is one second exactly if the zeroing did not fall inside a backoff, and else two seconds |
| SupervisorHistory.CleanStartMeaning | pkg/fluent/watcher.go:115-131 | in every reachable state from the end of Start until Wait drops the command, cleanStart says whether there is a process |
| SupervisorHistory.CleanStartRecorded | pkg/fluent/watcher.go:115-131 | from the end of an attempt up to the next one cleanStart says whether the attempt succeeded, whatever else happens |
| SupervisorHistory.TotalStartsCounts | pkg/fluent/watcher.go:113 | in every run totalStarts is the number of processes started and of attempts that failed or are under way |
| SupervisorHistory.ArmedWithCounts | pkg/fluent/watcher.go:166-171 | in every run the k-th arming of the timer by backoff is with the delay of the k-th count that backoff read |
| SupervisorHistory.VersionCounts | pkg/fluent/watcher.go:271-280 | the version is the number of configuration changes |
| SupervisorHistory.VersionStep | pkg/fluent/watcher.go:271-280 | only a change raises the version, and a stopper takes the version of the moment at which it is called |
| SupervisorHistory.ChangeTakesEffect | pkg/fluent/watcher.go:271-280 | in every run: once a stopper called after a change is through with Stop, every process that runs was started after the change |
| RunDelays.ZeroedInBackoff | pkg/fluent/watcher.go:179-216 | a reachable state in which resetTimer zeroes the counter inside a backoff |
| RunDelays.OldCountFirst | pkg/fluent/watcher.go:203-217 | if resetTimer finds the timer neither running nor its tick there, with no other reset pending and the supervisor not about to arm it, the next backoff reads the old count unless somebody else zeroes it, and until then resetTimer stays at its receive |
| TimerResets.CutsBackoffShort | pkg/fluent/watcher.go:175-213 | if timer.Stop succeeds while backoff waits, then until the supervisor has its tick the timer is not running or fires at once, and the stopper's next step sets it running |
| FluentConfig.Config.constructor | pkg/fluent/watcher.go:54-69 | the new object is the initial state |
| FluentConfig.Config.Start | pkg/fluent/watcher.go:85-131 | each field after Start, cleanStart among them, for a start that succeeds, one that fails, and a command that is already there |
| FluentConfig.Config.Wait | pkg/fluent/watcher.go:133-159 | all fields after Wait |
| FluentConfig.Config.Backoff | pkg/fluent/watcher.go:161-180 | all fields after backoff when nobody else touches the timer, and the delay it arms the timer with |
| FluentConfig.Config.Stop | pkg/fluent/watcher.go:182-201 | all fields after Stop |
| FluentConfig.Config.ResetTimer | pkg/fluent/watcher.go:203-217 | whether resetTimer returns without help, and each field if it does; if it does not, nothing has changed |
| FluentConfig.Config.Supervise | pkg/fluent/watcher.go:224-241 | for the object alone: the fields and the delays after any number of turns of the loop, for any outcomes |
| FluentConfig.StartAlone | pkg/fluent/watcher.go:85-131 | the object's Start is a run of the transition system |
| FluentConfig.WaitAlone | pkg/fluent/watcher.go:133-159 | the object's Wait is a run of the transition system |
| FluentConfig.BackoffAlone | pkg/fluent/watcher.go:161-180 | the object's Backoff is a run of the transition system |
| FluentConfig.StopAlone | pkg/fluent/watcher.go:182-201 | the object's Stop is a run of a stopper |
| FluentConfig.ResetTimerAlone | pkg/fluent/watcher.go:203-217 | the object's ResetTimer is a run of a stopper, which stays at the receive exactly when the method does not return |
| FluentConfig.RoundsReachable | pkg/fluent/watcher.go:224-241 | what any number of turns leaves in the object is shared by a reachable state |
| FluentConfig.CrashLoop | pkg/fluent/watcher.go:161-241 | for the object alone: if every attempt fails, each turn starts once, the k-th delay is that of count k, and the first 34 delays add up to what is promised |
| FluentConfig.TenMinutesReset | pkg/fluent/watcher.go:150-154 | for the object alone: after ten minutes without trouble the next delay is one second again |
| Backoff.DelayExact | pkg/fluent/watcher.go:166-169 | the delay is the promised one exactly if the count is at most 33 or bit 54 - count of 1953125 is clear; otherwise it is zero or negative |
| Backoff.IntendedBounds | pkg/fluent/watcher.go:166-169 | the promised delays start at one second, never decrease and stay within five minutes |
| Backoff.TotalDelayClosed | pkg/fluent/watcher.go:166-169 | the first n promised delays add up to 2^n - 1 seconds for n up to 9, and to 511 + 300 (n - 9) seconds after that |
| Redaction.Find | lua/redaction.lua:48 | the lazy item finds the first closing tag |
| Redaction.TagLength | lua/redaction.lua:40 | the pattern matches at a position exactly if a tag with some number of slashes is there, backtracking included |
| Redaction.LowerAt | lua/redaction.lua:40 | exactly the characters inside matches are put in lower case, and no other is changed |
| Redaction.LowerIdempotent | lua/redaction.lua:40 | lowering the tags twice is lowering them once |
| Redaction.LowerConcat | lua/redaction.lua:40 | the parts of a text can be lowered separately if the first ends with `>` or the second starts with `<` |
| Redaction.Unique | lua/redaction.lua:48 | a text has at most one structure of gaps, regions and tail |
| Redaction.ScanCorrect | lua/redaction.lua:48 | every text has one |
| Redaction.RewriteMeaning | lua/redaction.lua:48 | the substitution keeps gaps and tail and replaces each body by its hash between the same tags |
| Redaction.RedactCorrect | lua/redaction.lua:40-50 | the output keeps every gap of the lowered text and has the hash of salt and body for each body; scanning and lowering it again finds the same gaps and as many regions |
| Redaction.RedactWithSha1 | lua/redaction.lua:40-82 | the same with SHA-1 itself as the hash, for every text whose bodies, with the salt, are shorter than 2^29 bytes |
| Redaction.RedactTotal | lua/redaction.lua:40-50 | every text has the structure that RedactCorrect speaks of |
| Redaction.SpellingIsIrrelevant | lua/redaction.lua:39-40 | a tag in capitals and the same tag in lower case give the same output, anywhere in any text |
| Redaction.TagSpelling | lua/redaction.lua:40 | the pattern matches `<`, any number of slashes and `UD>`, and nothing else |
| Redaction.TagLowered | lua/redaction.lua:40 | in any text such a match becomes the same with `ud>`, and what is around it is lowered for itself |
| Redaction.RegionRedacted | lua/redaction.lua:39-83 | the first region of any text, in either spelling: what precedes it is kept, its body is replaced by its hash between `<ud>` and `</ud>`, and the rest is redacted for itself |
| Redaction.SaltIsHashed | lua/redaction.lua:74-83 | for a gap and a body without `<` what is written is the hash of the salt followed by the body |
| Redaction.FieldRedacted | lua/redaction.lua:39-83 | the same for a field that is one region; a field without `<` stays as it is |
| Redaction.RedactLowered | lua/redaction.lua:40-48 | redacting the lowered text is redacting the text |
| Redaction.Sha1Digest | lua/redaction.lua:80-81 | SHA-1 gives 40 lower-case hexadecimal digits |
| Redaction.Record.CbSubMessage | lua/redaction.lua:31-59 | exactly those of the nine keys that are present are redacted in place, once each and with the salt, no other is touched, and the code says whether there was one |
| KnownAnswer.SheepsRedacted | test/test-redaction.conf:34 | in a line of the form of the repository's test, the second region, in capital tags and without a salt, becomes the expected digest |
| ConfigFlattener.BuildConfigFile | pkg/common/parser.go:193-227 | the result is the in-order expansion of the root file, and there is none if the expansion fails |
| ConfigFlattener.LineMeaning | pkg/common/parser.go:208-224 | a line that starts with "@include " contributes the expansion of the file which the rest of the line leads to, one that starts with # nothing, and any other itself |
| ConfigFlattener.TreeRanked | pkg/common/parser.go:193-227 | for the result it is enough that the files which chains of includes from the root lead to can be ranked; other files may include themselves |
| ConfigFlattener.FailsExactly | pkg/common/parser.go:194-216 | it fails exactly if a chain of includes leads to a file that is missing |
| ConfigFlattener.ContainsExactly | pkg/common/parser.go:205-226 | it contains a line exactly if the line is neither a comment nor an include and a chain of includes leads to a file with it |
| ConfigFlattener.LinesConcat | pkg/common/parser.go:205-226 | the expansion follows the order of the lines |
| ConfigOrder.InOrder | pkg/common/parser.go:205-226 | the lines of the built configuration are all occurrences of plain lines in the tree of includes, each once, in the order of a walk through it |
| ConfigFlattener.BuildAgain | pkg/common/parser.go:193-227 | a built configuration builds to itself |
| ConfigFlattener.SameExpansion | pkg/common/parser.go:193-227 | the result does not depend on the ranking that shows the includes to be acyclic |
| ConfigSections.NormIdempotent | pkg/common/parser.go:58 | trimming and upper-casing a line again changes nothing |
| ConfigSections.NormMeaning | pkg/common/parser.go:58 | every line is spaces, a middle that neither starts nor ends with one, and spaces, where a space is one of the six of ASCII; the normalised line is the middle with a to z replaced by A to Z; a head line is one whose middle starts with a bracket |
| ConfigSections.SectionsWellFormed | pkg/common/parser.go:94-111 | a section is a head line followed by normalised lines that are none |
| ConfigSections.SectionsConcat | pkg/common/parser.go:94-127 | the sections of two files, the second starting with a head line, are those of one followed by those of the other |
| ConfigSections.SectionsKeepLines | pkg/common/parser.go:94-111 | for every file, the sections put together are its lines, normalised, from the first head line on |
| ConfigSections.LeadingLine | pkg/common/parser.go:115-127 | a line before the first head line belongs to no section |
| ConfigSections.RescanIsOnePass | pkg/common/parser.go:94-127 | reading on from each head line gives the sections of one pass |
| ConfigSections.ConfigFileParser.ExtractSection | pkg/common/parser.go:94-111 | the lines from the start up to the next head line |
| ConfigSections.ConfigFileParser.BuildSections | pkg/common/parser.go:115-127 | exactly the input and the output sections of the one pass are added, in order |
| ConfigSections.PluginFound | pkg/common/parser.go:94-127 | a head line with its lines is a plugin of that name exactly if the head line, normalised, is the name, whatever comes before and after |
| PluginCounts.FindNextPrefix | pkg/common/parser.go:55-67 | the first line with the prefix, unless a head line comes before it |
| PluginCounts.HandleAuditInputs | pkg/common/parser.go:71-83 | 0 exactly if audit is off and the first path after the starting line, within the section, is the audit log; else 1 |
| PluginCounts.AuditCountMeaning | pkg/common/parser.go:71-83 | from the head line it is 0 exactly if audit is off and the first path of the section is the audit log |
| PluginCounts.PluginLines | pkg/common/parser.go:72-157 | which lines are looked for: MEM_BUF_LIMIT; the first PATH, if it ends with AUDIT.LOG and audit is off; MATCH, if its variable is neither empty nor no-match |
| PluginCounts.InputCountExact | pkg/common/parser.go:138-149 | a section counts right exactly if it has a limit line or only a head line, and else too much |
| PluginCounts.WithoutLimit | pkg/common/parser.go:138-149 | a section without a limit line counts once for each of its lines from which the next path is not that of disabled audit |
| PluginCounts.NumInputsExact | pkg/common/parser.go:138-149 | the sum is the number of enabled inputs exactly if every input section counts right, and else larger |
| PluginCounts.CountedTwice | pkg/common/parser.go:138-149 | a file with one input that is counted twice |
| PluginCounts.LimitNamesMeaning | pkg/common/parser.go:142-147 | one variable for each section with a limit line, that of the first such line, and none for the others |
| PluginCounts.OutputCountFrom | pkg/common/parser.go:151-161 | an output counts once if it has an active match line, and else not |
| PluginCounts.PluginNumbers | pkg/common/parser.go:138-167 | the sums are the numbers of input sections that are not disabled audit and of active output sections |
| ConfigSections.NamedOfJoined | pkg/common/parser.go:115-127 | the input or output sections of two files, the second starting with a head line, are those of one followed by those of the other |
| PluginCounts.CountsOfJoined | pkg/common/parser.go:132-167 | all counts of two such files add up, and the variables follow in order |
| PluginCounts.CreateMemBufLimitConfig | pkg/common/parser.go:132-167 | the numbers and the variables for every file: outputs exactly, inputs exactly under the condition |
| Float32.RelativeError | pkg/common/common.go:244 | rounding to float32 changes a number by at most the part 2^-24, and none below 2^24 |
| Float32.AtLeast | pkg/common/common.go:244-246 | the product of n and 1.2 in float32, cut to an integer, is at least n and at most 1.3 n |
| Float32.Exact | pkg/common/common.go:244-246 | below 2^20 it is exactly 6 n / 5 rounded down |
| MemLimits.LimitsFit | pkg/common/common.go:243-247 | with the float32 divisor: it is at least one, the limit times the plugins stays within the memory, and one more times 1.3 times the plugins would exceed it |
| MemLimits.LimitExact | pkg/common/common.go:243-247 | below 2^20 plugins, outputs counted twice, the limit is the memory divided by 6/5 of the plugins rounded down, cut towards zero |
| MemLimits.Process.SetMemoryBufLimitDefaults | pkg/common/common.go:71-165 | exactly the thirteen variables are set to false |
| MemLimits.PluginsFit | pkg/common/common.go:218-232 | the same for the enabled inputs and active outputs of a configuration as counted |
| MemLimits.SetAllGet | pkg/common/common.go:237-239 | exactly the variables with a name get the value |
| MemLimits.UpdateFits | pkg/common/common.go:218-239 | after an update every named variable holds one limit, which multiplied by the enabled inputs and twice the active outputs stays within the memory; the others are unchanged |
| MemLimits.Process.UpdateMemoryBufLimits | pkg/common/common.go:199-240 | the environment and the ending on every path: no memory given, a number that does not parse, a configuration that does not build, nothing to count, and success |

## Left out

- Sha1.Sha1: a Lua number is modelled as an integer. Bounds below 2^53 are proved of the rotation (WordOps.PureLrotExact), the byte sums, every partial sum of a round (Sha1.SumCorrect) and the sums into h0 to h4 (Sha1.Accumulate); merging and splitting bytes stays below 2^32. The length in bits of a string of 2^50 bytes or more, and floating point itself, are not modelled.
- Sha1.LoadChunk: each chunk starts from the array as the previous one left it, as in the source; that Lua's table `w` may grow is not modelled.
- sha1.hmac_binary and the call metamethod (lua/sha1/init.lua:189-193): compositions of modelled functions.
- SupervisorTheorems.TimerNeverDead: it speaks of the supervisor; for resetTimer see TimerResets.ReturnsExactly.
- TimerResets.ReturnsExactly: some run ends the call; not every run does, since the supervisor can take each tick first.
- SupervisorProgress.AlwaysArrives: steps are counted, not time; a run with new events for ever is not covered.
- Backoff.DelayExact: from count 63 on the source converts a float64 beyond int64, whose result Go leaves to the machine; both usual results are covered, others are not.
- FluentConfig.Config.Wait: a process that Wait waits for is gone when Wait returns; how long that takes is one truth value, at least ten minutes or not.
- FluentConfig.Config.Backoff: the object's receive is resolved as if no stopper touched the timer; the transition system has the interleavings.
- FluentConfig.Config.ResetTimer: it says when the call returns with nobody else moving; for all interleavings see TimerResets.ReturnsExactly.
- FluentConfig.Config.Supervise: the loop is endless in the source; it is modelled for every finite number of turns, without stoppers and without the cancel check, which the transition system has.
- FluentConfig.CrashLoop: it speaks of the object alone; for all interleavings see RunDelays.DelaysOverRun.
- FluentConfig.TenMinutesReset: it speaks of the object alone; for all interleavings see RunDelays.FirstDelay.
- The contents of the environment and of the log in Start and Wait, fsnotify, run.Group, os/exec and real time.
- Redaction.RedactWithSha1: a body that makes sha1.sha1 fail (2^29 bytes and more with the salt) raises an error in the source, which is not modelled; the salt is a parameter, so the salt file is taken not to change during a call.
- Redaction.Record.CbSubMessage: values that are not strings, and the globals that the function assigns.
- ConfigFlattener.BuildConfigFile: cyclic includes, for which the source never returns; lines too long for the scanner, at which it stops silently; and the path joining and environment lookup of handleIncludeFilePaths, which is a parameter.
- ConfigSections.NormIdempotent: lines are ASCII, so Unicode spaces and letters are not covered.
- PluginCounts.CreateMemBufLimitConfig: extractEnvVar's regular expression, os.Getenv and GetAuditEnabled are parameters.
- MemLimits.Process.UpdateMemoryBufLimits: strconv.Atoi and the formatting of the limit are parameters, and log.Fatalw is an ending.
- The Couchbase rebalance report watcher and its removal of old files (pkg/couchbase), Kubernetes annotations, logging, version and the tools.
