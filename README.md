# sesmail listener, modelled in Dafny

`sesmail` is a supervisord event listener. It subscribes to
`PROCESS_STATE` events, picks out the ones where a watched process exits,
dies (`FATAL`) or leaves the `EXITED` state, and mails a notice through
Amazon SES for each one. The mail has a subject such as
` worker EXITED at <time>` and a one-line message. After each event the
listener acknowledges to supervisord with `listener.ok`. The repository
ships two entry points:

- `sesmailcmd.py`, configured by command-line options;
- `sesmail.py`, configured by `/etc/superlanceadds.conf`.

Both files define the same `SesMail` class, line for line.

The model has five modules:

| module | file | models |
|---|---|---|
| `Builtins` | `builtins.dfy` | the Python built-ins the code relies on: `str.split` on one character (and `join` as its inverse), `needle in hay` on strings, truthiness of an optional string, optional values and results |
| `Decision` | `decision.dfy` | the decision `runforever` takes for one event: event-name normalisation, the payload update, the class gate, exclusion, selection, and the `%`-formatted message and subject, including the `KeyError` a missing field raises |
| `Listener` | `listener.dfy` | the `SesMail` class: its constructor, and `runforever` over a finite stream of events, writing mails and acknowledgements into a `trace` field. It also models the protocol discipline (one acknowledgement per event handled, each mail before its event's acknowledgement) and `SesMail(**dakwargs)` followed by `runforever()` |
| `SesMailCmd` | `sesmailcmd.dfy` | `main` of `sesmailcmd.py`: the loop that folds `getopt`'s `(option, value)` pairs into `dakwargs`, and what `main` then does |
| `SesMailConfig` | `sesmailconfig.dfy` | `main` of `sesmail.py`: the configuration lookups in reading order, the `split` and `bool` conversions, and what `main` then does |

The class is modelled once, and the table below cites `sesmailcmd.py`.
The twin lines in `sesmail.py` are seven lines earlier for the class body:

- `__init__`: lines 36-50;
- `runforever`: lines 55-87;
- `mail`: lines 89-98.

Behaviour of the code worth knowing:

- A missing header or payload field raises `KeyError` out of
  `runforever`. The loop has no `try`, so that event is never
  acknowledged and the loop ends, although supervisord's event-listener
  protocol waits for a result for every event it sends. The model follows
  the code: `Decide` returns
  `KeyError(key)`, and `RunForever` stops there and returns the key.
- Selection and exclusion compare the bare `processname` with the list
  elements. A `group:name` entry never matches a process name without a colon
  (`QualifiedNamesDoNotMatch`).
- There is no gate on the payload's `expected` flag. The decision reads
  no field but those named in `DecideReadsNamedFields`.
- The event name is `split('_')[-1]`, the text after the last
  underscore. It is not a prefix strip.

## Model

| member | source | states |
|---|---|---|
| `Builtins.Split` | superlanceadds/sesmail.py:103-107 | `str.split` on one character never returns an empty list: an empty string gives one empty piece |
| `Builtins.SplitJoin` | superlanceadds/sesmail.py:103-107 | the pieces of `s.split(sep)` number one more than the separators in `s`, none holds the separator, and joining them with the separator gives `s` back |
| `Builtins.JoinSplit` | superlanceadds/sesmail.py:103-107 | splitting the join of a non-empty list of separator-free pieces gives the list back |
| `Decision.Normalize` | superlanceadds/sesmailcmd.py:68 | `split('_')[-1]`; no `ensures` of its own, specified by `NormalizeIsLastSegment`, `NormalizeAfterUnderscore`, `NormalizeWithoutUnderscore` and `NormalizeProcessStates` |
| `Decision.NormalizeIsLastSegment` | superlanceadds/sesmailcmd.py:68 | the normalised event name is a suffix of the header name with no `_`, preceded by `_` or by nothing (the text after the last underscore) |
| `Decision.NormalizeAfterUnderscore` | superlanceadds/sesmailcmd.py:68 | for any prefix, `prefix_name` normalises to `name` when `name` holds no underscore |
| `Decision.NormalizeWithoutUnderscore` | superlanceadds/sesmailcmd.py:68 | a name without an underscore is its own normal form |
| `Decision.NormalizeProcessStates` | superlanceadds/sesmailcmd.py:68 | `PROCESS_STATE_EXITED`, `PROCESS_STATE_FATAL` and `PROCESS_STATE_STARTING` normalise to `EXITED`, `FATAL` and `STARTING` |
| `Decision.Enrich` | superlanceadds/sesmailcmd.py:67-68 | the payload fields gain `eventname`, set to the normalised header name, which overwrites any `eventname` of the payload; every other field is kept |
| `Decision.Interpolate` | superlanceadds/sesmailcmd.py:83-85 | `%`-formatting with a mapping, applied to `MessageTemplate`; no `ensures` of its own, specified by `InterpolateOutcome`, `InterpolateReadsFields` and `MessageText` |
| `Decision.InterpolateOutcome` | superlanceadds/sesmailcmd.py:83-85 | `%`-formatting with a mapping succeeds exactly when every named field is present; otherwise it fails with the first missing field in template order |
| `Decision.InterpolateReadsFields` | superlanceadds/sesmailcmd.py:83-85 | formatting depends only on the fields the template names |
| `Decision.MessageText` | superlanceadds/sesmailcmd.py:83-85 | the message is `Process <processname>, in group <groupname>,  moved to <eventname> from state <from_state>`, with two spaces after the second comma |
| `Decision.SubjectLayout` | superlanceadds/sesmailcmd.py:87-90 | the unprefixed subject is a space, the process name, a space, the normalised event name, ` at ` and the time, each at its place and nothing else; it is prefixed with `header:` exactly when the optional header is truthy |
| `Decision.Subject` | superlanceadds/sesmailcmd.py:87-90 | the subject line; no `ensures` of its own, specified by `SubjectLayout` |
| `Decision.IsCandidate` | superlanceadds/sesmailcmd.py:70-71 | the event-class gate; no `ensures` of its own, specified by `FilterCascade`, `AnyNotifiesEveryCandidate` and `FromStateLookup` |
| `Decision.Decide` | superlanceadds/sesmailcmd.py:66-92 | the decision for one event; no `ensures` of its own, specified by `FilterCascade`, `NotifyContents`, `ExclusionWins`, `AnyNotifiesEveryCandidate`, `NothingSelected`, `QualifiedNamesDoNotMatch`, `DecideErrors`, `FromStateLookup` and `DecideReadsNamedFields` |
| `Decision.FilterCascade` | superlanceadds/sesmailcmd.py:70-82 | a well-formed event notifies iff its class qualifies (`PROCESS_STATE_EXITED`, `PROCESS_STATE_FATAL` or `from_state == 'EXITED'`), the process is not excluded, and `any` is set or the name is in `programs`; otherwise it is suppressed |
| `Decision.NotifyContents` | superlanceadds/sesmailcmd.py:83-92 | a notification carries the subject and message built from the process name, group, normalised event name, previous state and time |
| `Decision.ExclusionWins` | superlanceadds/sesmailcmd.py:75-82 | an excluded process never notifies, even if it is in `programs` or `any` is set |
| `Decision.AnyNotifiesEveryCandidate` | superlanceadds/sesmailcmd.py:79-82 | with `any` set, every qualifying event of a process that is not excluded notifies |
| `Decision.NothingSelected` | superlanceadds/sesmailcmd.py:79-82 | with `any` off and `programs` empty, nothing notifies |
| `Decision.QualifiedNamesDoNotMatch` | superlanceadds/sesmailcmd.py:79-82 | with `any` off and only `group:name` entries in `programs`, a process name without a colon never notifies |
| `Decision.DecideErrors` | superlanceadds/sesmailcmd.py:66-87 | a `KeyError` names a missing header `eventname` or a missing payload `from_state`, `processname` or `groupname`; a well-formed event raises none |
| `Decision.FromStateLookup` | superlanceadds/sesmailcmd.py:70-85 | `from_state` is read by the class gate only for events other than `PROCESS_STATE_EXITED`: such an event without it raises `KeyError('from_state')`. An EXITED event without it passes the gate: it is suppressed when the process is excluded or not selected, and otherwise the message formatting raises `KeyError('from_state')` |
| `Decision.DecideReadsNamedFields` | superlanceadds/sesmailcmd.py:66-90 | the decision depends only on the header `eventname`, the payload's `processname`, `groupname` and `from_state`, and the time; `expected` and a payload `eventname` play no part |
| `Listener.OrEmpty` | superlanceadds/sesmailcmd.py:46-49 | a missing or empty list argument becomes `[]`; any other list is kept as given |
| `Listener.Emits` | superlanceadds/sesmailcmd.py:70-94 | what one event writes; no `ensures` of its own, specified by `AckPerDecision` and, through `Transcript`, by `MailsAreNotices` and `MailBeforeAck` |
| `Listener.Transcript` | superlanceadds/sesmailcmd.py:62-94 | everything the loop writes for a stream of decisions, up to the first `KeyError`; no `ensures` of its own, specified by `OneAckPerEvent`, `MailsAreNotices` and `MailBeforeAck`, and tied to the loop by `SesMail.RunForever` |
| `Listener.Served` | superlanceadds/sesmailcmd.py:63-94 | the number of events handled before the first `KeyError`: none of those raises, and the event after them does |
| `Listener.AckPerDecision` | superlanceadds/sesmailcmd.py:70-94 | one event that does not raise writes exactly one acknowledgement; one that raises writes none |
| `Listener.OneAckPerEvent` | superlanceadds/sesmailcmd.py:62-94 | the loop writes exactly one acknowledgement per event handled |
| `Listener.MailsAreNotices` | superlanceadds/sesmailcmd.py:62-94 | the mails sent are exactly those of the events handled whose decision is to notify, with its subject and message, in event order |
| `Listener.MailBeforeAck` | superlanceadds/sesmailcmd.py:92-94 | every mail is immediately followed by its event's acknowledgement, and the output ends with an acknowledgement |
| `Listener.WellFormedStreamsAreServed` | superlanceadds/sesmailcmd.py:62-94 | a stream of N well-formed events is handled to the end and acknowledged exactly N times |
| `Listener.SesMail.constructor` | superlanceadds/sesmailcmd.py:43-57 | the listener keeps its arguments, with a falsy `programs` or `excluded` replaced by `[]`; nothing has been written yet |
| `Listener.SesMail.Mail` | superlanceadds/sesmailcmd.py:96-105 | sending a mail appends it to the output |
| `Listener.SesMail.Ack` | superlanceadds/sesmailcmd.py:73 | `listener.ok` appends an acknowledgement to the output |
| `Listener.SesMail.HandleEvent` | superlanceadds/sesmailcmd.py:66-94 | one pass of the loop body: a `KeyError` escapes before anything is written; otherwise a notice is mailed and then acknowledged, and a suppressed event is only acknowledged |
| `Listener.SesMail.RunForever` | superlanceadds/sesmailcmd.py:62-94 | the output grows by the transcript of the stream's decisions up to the first `KeyError`; no error is returned iff every event is handled, and a returned key is that of the first event that raises |
| `Listener.Launch` | superlanceadds/sesmailcmd.py:172-173 | `SesMail(**dakwargs).runforever()` selects by the settings the arguments give and writes the transcript of their decisions |
| `SesMailCmd.Apply` | superlanceadds/sesmailcmd.py:139-164 | one pass of the loop body; no `ensures` of its own, specified by `DashAlsoSetsCredentials` and, through `FoldFrom`, by `FoldFromLists` and `FoldFromLastWins` |
| `SesMailCmd.FoldFrom` | superlanceadds/sesmailcmd.py:134-164 | the option loop as a fold; no `ensures` of its own, specified by `UsageIffHelp`, `FoldFromLists`, `FoldFromLastWins` and `ParsedOptions`, and tied to the loop by `ParseOptions` |
| `SesMailCmd.IsAwsId` | superlanceadds/sesmailcmd.py:160 | the substring test `option in ('--aws_id')`; no `ensures` of its own, specified by `AccessKeyTestMatches` and `DashAlsoSetsCredentials` |
| `SesMailCmd.IsAwsSecret` | superlanceadds/sesmailcmd.py:163 | the substring test `option in ('--aws_secret')`; no `ensures` of its own, specified by `SecretTestMatches` and `DashAlsoSetsCredentials` |
| `Builtins.Contains` | superlanceadds/sesmailcmd.py:160-163 | Python `needle in hay` on strings; no `ensures` of its own, specified through `AccessKeyTestMatches` and `SecretTestMatches` |
| `SesMailCmd.ParseOptions` | superlanceadds/sesmailcmd.py:130-164 | the option loop computes the fold of the options from the defaults (`programs=[]`, `excluded=[]`, `any=False`), stopping with `usage()` at the first help option |
| `SesMailCmd.UsageIffHelp` | superlanceadds/sesmailcmd.py:136-137 | the loop stops with `usage()` exactly when some option is `-h` or `--help` |
| `SesMailCmd.FoldFromLists` | superlanceadds/sesmailcmd.py:139-146 | the `-p`/`--program` and `-e`/`--exclude` values are appended in command-line order, and `any` is set iff `-a`/`--any` occurs |
| `SesMailCmd.FoldFromLastWins` | superlanceadds/sesmailcmd.py:148-164 | each single-valued key ends at the value of the last option that sets it, and keeps its earlier value when none does |
| `SesMailCmd.ParsedOptions` | superlanceadds/sesmailcmd.py:130-164 | from the defaults, the lists are exactly the selected values in order, `any` is whether `-a`/`--any` occurs, and header and region are the last ones given |
| `SesMailCmd.DashAlsoSetsCredentials` | superlanceadds/sesmailcmd.py:145-164 | for any arguments so far, `-a` sets `any` and, being a substring of `--aws_id` and `--aws_secret`, also sets both credentials to its value; nothing else changes |
| `SesMailCmd.DashAOverridesCredentials` | superlanceadds/sesmailcmd.py:145-164 | `--aws_id K --aws_secret S -a` ends with `any` set and both credentials empty: the later `-a` overwrites them |
| `SesMailCmd.AccessKeyTestMatches` | superlanceadds/sesmailcmd.py:111-161 | of the option names `getopt` can return for the declared options, exactly `-a` and `--aws_id` set the access key |
| `SesMailCmd.SecretTestMatches` | superlanceadds/sesmailcmd.py:111-164 | of the option names `getopt` can return for the declared options, exactly `-a` and `--aws_secret` set the secret |
| `SesMailCmd.Main` | superlanceadds/sesmailcmd.py:125-173 | what `main` does after the loop; no `ensures` of its own, specified by `RegionIsRejected` and, through `FoldFrom`, by `UsageIffHelp` |
| `SesMailCmd.RegionIsRejected` | superlanceadds/sesmailcmd.py:154-155 | under supervisord a `-r`/`--region` option adds a key the constructor rejects, so the listener never starts; without it the listener starts with the folded selection |
| `SesMailConfig.Get` | superlanceadds/sesmail.py:103-107 | `config.get(section, option)`; no `ensures` of its own, specified through `ConfigErrors` and `ConfigValues` |
| `SesMailConfig.ConfigKwargs` | superlanceadds/sesmail.py:103-107 | the `dict(...)` of `main`; no `ensures` of its own, specified by `ConfigErrors`, `ConfigValues` and `ConfiguredSelection` |
| `SesMailConfig.ConfigErrors` | superlanceadds/sesmail.py:103-107 | reading the configuration fails exactly when one of its seven keys is missing, with the `ConfigParser` error for the first missing one in reading order |
| `SesMailConfig.ConfigValues` | superlanceadds/sesmail.py:103-107 | `programs`, `excluded` and `emailto` are the comma-split of their values (comma count plus one pieces, joining back to the value); `any` is true iff `All` is non-empty, so `False` gives true; no subject header and no region are set |
| `SesMailConfig.ConfiguredSelection` | superlanceadds/sesmail.py:36-44 | the split lists are never empty, so the constructor keeps them; an empty `Include` gives `programs == ['']`, so with an empty `All` only the empty process name is selected; subjects are never prefixed |
| `SesMailConfig.MissingProcessesFails` | superlanceadds/sesmail.py:101-103 | a configuration without a `Processes` section, as an unreadable or empty file is, fails with `NoSectionError('Processes')` whatever the environment |
| `SesMailConfig.Main` | superlanceadds/sesmail.py:100-116 | what `main` does; no `ensures` of its own, specified by `MainOutcome` and `MissingProcessesFails` |
| `SesMailConfig.MainOutcome` | superlanceadds/sesmail.py:100-116 | a configuration error comes before the environment check; the listener starts iff under supervisord with every key present, selecting by the split lists and the truthiness of `All`, with no header |

## Left out

- Mail transport: `mail()` builds an SES connection and sends. That is network I/O, and `SesMail.Mail` records the mail in the trace instead. An exception from the transport would escape `runforever` before the `ok`; the model does not capture that.
- `childutils.listener.wait`, `childutils.listener.ok` and `childutils.eventdata` belong to the supervisor library, which is not part of this model. The model does not write the `READY` token. Its input per event is the parsed header map and payload map.
- `childutils.get_asctime()` reads the clock. Each event carries its time as a plain field instead.
- The `while 1` loop runs over a finite sequence of events, and the model stops at its end. What `runforever` does when its input closes is decided inside `childutils.listener.wait`, and the model does not capture it.
- stderr logging is left out: `str(self.excluded)` on every event and the SES response after a mail.
- `getopt.getopt` is left out. The fold takes the pairs it returns. The missing comma that joins `"optionalheader="` and `"emailto="` into one long option is a `getopt` matter: `--emailto` is not recognised, and `--optionalheader` comes back as `--optionalheader=emailto`, which no test of the loop matches (the option names `AccessKeyTestMatches` and `SecretTestMatches` range over include it). So is `usage()` on a `getopt` error.
- `usage()` printing its text and exiting with status 255 becomes the `ShowUsage` outcome.
- `ConfigParser.read` of `/etc/superlanceadds.conf` is left out. The model takes the file as a map from section to (lower-cased option name to value). The `DEFAULT` section and `%(name)s` value interpolation are not modelled.
- The `SUPERVISOR_SERVER_URL` environment check becomes a boolean parameter of `Main`, and its stderr message is left out.
- `setup.py`: packaging only.

## Quirks reproduced

The following are quirks of the source. The model reproduces each one and proves it as a property rather than correcting it:

- `-a` sets both credentials (`DashAlsoSetsCredentials`).
- An `All = False` configuration selects every process (`ConfigValues`).
- `-r` aborts the start (`RegionIsRejected`).
- A `KeyError` ends the loop with an unacknowledged event (`Listener.SesMail.RunForever`).
