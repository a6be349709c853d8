# statsd-agent, modelled in Dafny

statsd-agent is a small daemon that samples host and container metrics and sends
them to a statsd server as gauges, tagged with a `,key=value,...` suffix. This
project models the parts of `statsd-agent.py` that have logic of their own:

- `wrappers.dfy` — `Option` and `Result`.
- `text.dfy` — the string operations the agent relies on: `str.strip`,
  `str.startswith`, the substring test `in`, the search for '=' inside
  `split('=', 1)`, `','.join` and `str.split`, with `Split(Join(parts)) == parts`
  proved.
- `ints.dfy` — `to_int`, `StatsdConfig.get_str`, `get_int` and `get_boolean`, over a config file
  given as a map from section to option to optional value. The map stands for
  `RawConfigParser(allow_no_value=True)`. The program is written for Python 2
  (`docker.py` imports `httplib` and `StringIO`, and `setup.py` builds with py2exe).
  So `int()` is Python 2's conversion of a str, which skips whitespace between the
  sign and the digits. `int(str(n)) == n` is proved. `get_boolean` either gives a
  boolean or reports why `getboolean` raised past its `except Error`.
- `fields.dfy` — `StatsdConfig.get_fields`, the tag-suffix builder. It has two parts:
  - a method `GetFields` that follows the source's loops over `fields` and `field_set`;
  - the pure `FieldSuffix` that specifies it.

  The lemmas prove three things about the result: which fields it contains and in
  what order, that keys are distinct, and how the suffix is shaped.
- `nic.dfy` — `get_nic`, which picks the interface to measure, and the start-up
  checks of `main`. `get_nic` is a method with the source's nested loops and
  `found`/`break` flags, proved equal to the pure `SelectNic`.
- `network.dfy` — the host network sampler `network`. Its three module globals become
  the fields of the class `NetworkSampler`, and `Sample` is proved equal to the pure
  step `NetStep`.
- `containers.dfy` — the per-container rate engine of `run_docker`. Its five
  dictionaries of previous values become the fields of the class `Engine`:
  - `Update` is one pass of the loop body;
  - `RunCycle` is one pass over the container list.

  Both are proved equal to pure functions (`Step`, `Cycle`). The lemmas state the
  arithmetic, the first-sighting behaviour and what happens to state.

The operating system, clock, host name, container runtime and JSON lookups become
parameters:
- the interface table and the set of interface names that have counters;
- a `real` timestamp;
- a record of optional numbers per stats payload;
- the config file's `[fields]` options as an ordered list of (name, optional value)
  pairs.

Arithmetic is exact (`real`).

Where the code and its documented behaviour disagree, the model follows the code.
There is one exception: the host network error gauges, whose labels the code swaps.
The model reports them corrected (see "## Findings" and the
`HostNetwork.NetworkSampler.Sample` line under "## Left out").

- As written, `run_docker` never samples a container. At statsd-agent.py:194 it calls
  `get(address, path, debug)`, but `get` takes two parameters (docker.py:14). The
  resulting `TypeError` is caught at statsd-agent.py:261-262, so the function logs it
  and returns before the first container. `RunCycle` and `Cycle` model the loop as if
  `get` accepted the call and returned the container list.
- A container seen for the first time is measured against zero baselines (all five
  dictionaries default to 0). So the first cycle reports these values:
  - a CPU percentage from the whole usage;
  - byte rates equal to the whole counters divided by the time since the epoch.
  Nothing suppresses them (`ContainerRates.FirstSighting`).
- A missing or zero memory limit reads as 1 (`or 1`), so the memory percentage is then
  100 times the usage in bytes. The `else 0` branch is reached only by a negative
  limit (`ContainerRates.MemPercentCases`).
- The host network rates have no guard of any kind (`HostNetwork.NetStepCases`):
  - a counter that went down gives a negative rate
    (`HostNetwork.CounterResetGivesNegativeRate`);
  - a zero elapsed time raises `ZeroDivisionError` after the byte counters were
    already replaced (`HostNetwork.AfterZeroElapsed`). Nothing in `main` catches that
    error.
- The expression `length(cpu_stats.cpu_usage.percpu_usage)` handles a missing list as
  follows:
  - In the JMESPath function library, `length` accepts only a string, an array or an
    object.
  - Applied to a missing list (null), it raises an invalid-type error before `or 1`
    is reached.
  - `run_docker` catches that error only outside its `while` loop, so it ends the
    container sampling. By then the container's memory gauge is already queued and no
    previous value has been stored.

  `ContainerRates.Step` returns `None` for this case, and `ContainerRates.MissingPerCpuStops`
  states it. `or 1` only replaces a list of length 0.
- Entries of the five dictionaries are never removed (`ContainerRates.CycleKeepsNames`).

## Model

| member | source | states |
|---|---|---|
| Ints.ToInt | statsd-agent.py:29-33 | `None` gives the default, a string Python 2's `int()` accepts gives its value, any other string gives the default |
| Ints.SpaceAfterMinus | statsd-agent.py:31 | for any run of whitespace w and any digit string d spelling m, `int("-" + w + d) == -m`: whitespace between the sign and the digits is skipped |
| Ints.SpaceAfterPlus | statsd-agent.py:31 | the same after '+': `int("+" + w + d) == m` |
| Ints.ParseShow | statsd-agent.py:29-33 | `int(str(n)) == n` for every integer: the conversion `to_int` relies on reads back what Python writes |
| Ints.GetStr | statsd-agent.py:266-270 | a missing section or option gives the default; otherwise the stored value, which may be `None` |
| Ints.GetIntCases | statsd-agent.py:272-273 | `get_int` gives the default for a missing option, for an option without a value and for a value `int()` rejects; otherwise it gives the number `int()` reads, which for the text `str(n)` is `n` |
| Ints.GetBoolean | statsd-agent.py:275-279 | a missing section or option gives the default; an option without a value raises (`None.lower()`); otherwise the value, lower-cased, is read as true for `1`, `yes`, `true`, `on` and as false for `0`, `no`, `false`, `off`, and anything else raises `ValueError` |
| Ints.SameSpelling | statsd-agent.py:275-279 | `get_boolean` ignores letter case: two values equal once lower-cased give the same boolean, or both raise |
| Fields.GetFields | statsd-agent.py:281-317 | the loops, the host decision, sanitising, joining and the comma prefix compute exactly `FieldSuffix` |
| Fields.CollectArgs | statsd-agent.py:285-291 | the first field without '=' is the error (`ValueError` of `split('=', 1)`); otherwise the fields and key set equal the fold `FoldArgs` |
| Fields.CollectOptions | statsd-agent.py:298-309 | the first option without a value is the error (`TypeError` of `in None`); otherwise the result equals the fold `FoldOptions` |
| Fields.ArgFieldsAreFirsts | statsd-agent.py:285-291 | after the command-line loop, `fields` is the first field of each key in order, and `field_set` is the set of all keys |
| Fields.OptionFieldsAreAccepted | statsd-agent.py:298-309 | the config loop appends, in order, exactly the options whose value is neither empty nor the placeholder and whose key is not yet taken; the key set only grows, and only by option names |
| Fields.FieldListContents | statsd-agent.py:285-312 | collected fields are the command-line firsts followed by the accepted options, with distinct keys, so command-line fields win; then `host=<hostname>` when the config flag is on, or when the argument flag is on and no `host` key exists |
| Fields.DistinctWithoutConfigHost | statsd-agent.py:311-312 | without the config flag every key in the result is distinct |
| Fields.ConfigHostRepeats | statsd-agent.py:311-312 | with the config flag on and a command-line `host=` field, the result holds two `host` fields (`A or (B and C)` binding) |
| Fields.ErrorCases | statsd-agent.py:287-311 | `get_fields` raises exactly when a command-line field has no '=', a config option has no value, or `add-host-field` is not a boolean; a bad command-line field is the error reported, and the flag's error only when both loops passed |
| Fields.RenderShape | statsd-agent.py:314-317 | empty suffix exactly when no fields; otherwise ',' then the sanitised fields, which `split(',')` recovers one by one; no spaces or dots |
| Fields.SuffixShape | statsd-agent.py:281-317 | the same shape for the whole of `get_fields` on its success path |
| Fields.Sanitize | statsd-agent.py:314 | each ',' and ' ' becomes '_', each '.' becomes '-', every other character is kept in place; so no ',', ' ' or '.' is left |
| Text.StripShape | statsd-agent.py:196 | `strip(cs)` yields the middle piece of the string, cut between two runs of characters from `cs`, and neither starts nor ends with one of them |
| Text.SplitJoin | statsd-agent.py:314 | splitting a ','-join of parts without commas gives back the parts |
| Nic.FirstTenNet | statsd-agent.py:322-333 | None exactly when no interface has an IPv4 address starting with "10."; otherwise the name of the first such interface in table order |
| Nic.SelectNic | statsd-agent.py:320-341 | a given name is returned when it has counters, else None; with no name (None or empty), the first 10.x interface is returned when it has counters, else None; any result has counters |
| Nic.GetNic | statsd-agent.py:320-341 | the nested search with `found` and `break` returns exactly `SelectNic` |
| Nic.StartupCases | statsd-agent.py:436-460 | start-up raises exactly when the `[docker] enabled` flag, the `debug` flag or `get_fields` raises; otherwise it exits with status 1 exactly when the system interval or the container interval is below 3 or no interface is found; otherwise it measures the interface `get_nic` chose with the suffix `get_fields` built, and samples containers when the config file or the command line enables them |
| Nic.HostFlagStopsStartup | statsd-agent.py:436-449 | with readable `[docker] enabled` and `debug` flags and well-formed fields, an `add-host-field` value that is not a boolean makes `main` raise from `get_fields`, whatever the intervals and interfaces |
| HostNetwork.NetStepCases | statsd-agent.py:131-154 | an unknown interface changes no global; otherwise the byte counters are replaced; with zero elapsed time the call fails and the time is kept; otherwise the rates times the elapsed time are the byte deltas and the time is replaced |
| HostNetwork.FirstCall | statsd-agent.py:128-147 | the first call divides the whole counters by the time since the epoch |
| HostNetwork.CounterResetGivesNegativeRate | statsd-agent.py:141-146 | a smaller byte counter with time moving forward gives a negative rate |
| HostNetwork.AfterZeroElapsed | statsd-agent.py:141-148 | after a call that failed on zero elapsed time, the next rate takes its bytes from the failed call's counters and its time from the sample before it |
| HostNetwork.AsWrittenSwapsDirections | statsd-agent.py:153-154 | as written, the program sends as `send_errors` the count the model reports as receive errors, and as `recv_errors` the count reported as send errors; when the two counts differ, the program's `send_errors` is not the send error count |
| HostNetwork.ErrorGauges | statsd-agent.py:153-154 | corrected: `send_errors` carries `errout` and `recv_errors` carries `errin` |
| HostNetwork.NetworkSampler.Sample | statsd-agent.py:131-154 | one call of `network` leaves the globals and returns the outcome given by `NetStep` |
| ContainerRates.Or | statsd-agent.py:202-203 | `x or d` on a looked-up number: missing or zero gives the default, otherwise the value |
| ContainerRates.MemPercentCases | statsd-agent.py:202-204 | a missing or zero limit gives 100 × usage; a negative limit gives 0; a positive limit gives 100 × usage / limit; a missing usage gives 0 |
| ContainerRates.CpuPercentCases | statsd-agent.py:212-223 | never negative; positive exactly when both deltas are; then (cpu delta / system delta) × CPUs × 100 |
| ContainerRates.CpuPercentExample | statsd-agent.py:222-223 | a concrete payload, 10,982,983 container against 3,970,000 system on 4 CPUs, gives about 1106.6 percent |
| ContainerRates.NumCpus | statsd-agent.py:220 | the per-CPU list length, or 1 for an empty list; never below 1 |
| ContainerRates.ByteRateCases | statsd-agent.py:242-243 | never negative; positive exactly when delta and elapsed time are; then rate × elapsed = delta |
| ContainerRates.StepState | statsd-agent.py:228-253 | after an update, the container's entries hold the current totals, counters and time, and every other entry is unchanged; names are only added |
| ContainerRates.StepCpuBounds | statsd-agent.py:212-228 | the reported CPU percentage is never negative and is positive exactly when both totals grew since the container's previous sample |
| ContainerRates.StepRateBounds | statsd-agent.py:232-243 | the reported byte rates are never negative, are positive exactly when the counter grew and time moved forward, and are then the growth per second |
| ContainerRates.FirstSighting | statsd-agent.py:215-239 | a new container is measured against zero totals, zero counters and time zero |
| ContainerRates.RepeatedSampleIsZero | statsd-agent.py:212-253 | the same payload again later gives zero CPU and byte rates and the same memory percentage |
| ContainerRates.RepeatedSampleKeepsCounters | statsd-agent.py:228-253 | storing the same payload again changes only the time |
| ContainerRates.CounterReset | statsd-agent.py:232-253 | a counter that went down reports 0 and becomes the baseline for the next rate |
| ContainerRates.ContainerName | statsd-agent.py:196 | None exactly for a container without names; otherwise a middle piece of the first name, with only '/' cut away on either side and no '/' left at either end |
| ContainerRates.CycleKeepsNames | statsd-agent.py:195-253 | a cycle never removes a name from any of the five dictionaries |
| ContainerRates.CycleGaugeCount | statsd-agent.py:195-255 | a completed cycle queues five gauges per container |
| ContainerRates.MissingPerCpuStops | statsd-agent.py:209-220 | a payload without a per-CPU list ends the cycle after its memory gauge, with no previous value changed |
| ContainerRates.CycleStops | statsd-agent.py:190-262 | once a container ends the loop, the rest of the list changes nothing |
| ContainerRates.Engine.Update | statsd-agent.py:202-253 | one loop body returns the reading and leaves the state given by `Step`, and changes nothing when the per-CPU lookup raises |
| ContainerRates.Engine.RunCycle | statsd-agent.py:195-255 | one pass over the containers queues the gauges and leaves the state given by `Cycle` |

## Left out

- `docker.py` (`get`): socket I/O and HTTP parsing. Its answers are the `Stats`
  records and the container list given to `RunCycle`. A non-200 answer (`{}`) is the
  `Stats` record with every field missing.
- `setup.py`: build configuration, with no behaviour.
- `disk`, `cpu_times`, `cpu_times_percent`, `memory`, `misc`, `run_once`: these forward
  psutil values to the statsd pipeline and have nothing to state.
- The polling loops, `time.sleep`, `multiprocessing`, the `KeyboardInterrupt`
  handling, the Windows service class and argparse. These are concurrency, OS
  services and timing. `RunCycle` models one pass of the container loop, and
  `Startup` models the decisions `main` makes after parsing.
- The statsd client, metric prefixes and pipeline sending: the model produces the
  gauge names and values that would be queued.
- `RawConfigParser` itself. The config map and the `[fields]` option list are inputs.
  `GetFields` and `Startup` take the flags as the results `GetBoolean` gives for them.
  Option-name lowercasing, the `DEFAULT` section and interpolation are not modelled.
  `Lower` lower-cases ASCII letters only.
- Ints.ToInt: `int()` is Python 2's conversion of a str (CPython 2.7's `PyOS_strtol`):
  - ASCII whitespace around the text and between the sign and the digits;
  - an optional sign;
  - decimal digits.

  Not modelled:
  - a value too large for a machine integer, which Python 2 converts through its
    `long` path with the same result;
  - a value that is neither a str nor `None`.
- Floating-point rounding: arithmetic is exact `real`, so `ZeroDivisionError` is the
  only float behaviour kept.
- The debug logging and error logging calls.
- ContainerRates.ContainerName: a `Names` list that is missing (`None`) is modelled
  as the empty list. Both end the loop.
- ContainerRates.Engine.RunCycle: models the container loop as if `get` at
  statsd-agent.py:194 accepted three arguments. As written, the call raises
  `TypeError` because `get` takes two (docker.py:14), and `run_docker` returns at
  statsd-agent.py:261-262 before sampling anything.
- HostNetwork.NetworkSampler.Sample: reports the error gauges corrected (`send_errors`
  from `errout`, `recv_errors` from `errin`). statsd-agent.py:153-154 sends them
  swapped. `HostNetwork.AsWrittenSwapsDirections` states how the program's values
  relate to the model's.

## Findings

| source | as written | input that shows it | evidently intended | confidence | as-written member | corrected member |
|---|---|---|---|---|---|---|
| statsd-agent.py:153-154 | the gauge `send_errors` is fed `net.errin` and `recv_errors` is fed `net.errout` (psutil's `errin` counts receive errors, `errout` send errors) | an interface with `errin = 5`, `errout = 0`: `send_errors` reports 5 although no send failed | `send_errors` from `errout`, `recv_errors` from `errin` | medium, not executed | HostNetwork.AsWrittenSwapsDirections | HostNetwork.ErrorGauges |
