# mqtt-watchdog: the topic table and its escalation engine

mqtt-watchdog watches a fixed set of MQTT topics. For each topic it keeps the
time of the last message. A periodic pass compares the silence against two
thresholds:

- **Level 1** sends a notification mail.
- **Level 2** sends a mail and restarts a systemd service.

Over passes at nondecreasing times (the clock not set back), with the warning
threshold at or below the restart threshold, each level fires at most once per
silence, and the flags reset when messages come back. With inverted
thresholds, level 2 fires again on every pass (`Escalation.InvertedThresholdsRefire`).
Global and per-topic counters feed a one-line statistics summary.

This project models that core in Dafny:

- the topic table and its three operations (`topic_config`,
  `topic_receive_message`, `topic_process`);
- the statistics line (`topic_stats_to_string`);
- the two actions it dispatches (`action_email_notification`,
  `action_systemd_service_restart`) and the email configuration they read;
- the mail payload and the upload callback of `email_send`.

Modules, leaves first:

| module | file | what it holds |
|---|---|---|
| `Wrappers` | wrappers.dfy | `Option` |
| `Text` | text.dfy | decimal rendering of `%lu`/`%ld`, and `snprintf` truncation into a fixed buffer |
| `Config` | config.dfy | the configuration store as three maps, and the `topic.<i>.<field>` keys |
| `Email` | email.dfy | the payload `email_send` formats, its parse back into header fields, the upload cursor (`UploadData` and its read callback), and the SMTP transfer as a logged transport |
| `Actions` | actions.dfy | the email configuration, the notification action, and the restart action over a logged service manager |
| `Escalation` | escalation.dfy | one monitor's escalation step, a pass over a table, message receipt, the table built from configuration, and repeated passes |
| `Stats` | stats.dfy | the statistics line: what the offset accounts for call by call, the buffer it leaves, and the writes into a `char` array |
| `Topics` | topics.dfy | `TopicTable`, the global table as a class over a 32-slot array with the two global counters, and the pass's side effects |

Modelling choices:

- **Time.** The clock (`time(NULL)`) is an `int now` parameter.
- **Side effects.** The mail transport (`curl_easy_perform`) and the service
  manager (`systemd_service_restart`) are classes that append every request to a
  log and return an arbitrary success flag. The side effects of a pass are
  therefore stated as exactly what is appended to the two logs.
- **Timestamps.** `localtime` and `strftime` formatting is a caller-supplied
  function `fmt` from a time to its rendered text. The buffer logic around it
  is modelled: a timestamp that does not fit counts nothing.
- **Methods and specifications.** Each method is proved against a function on
  values:
  - `Processed`, `Received` and `ConfiguredMonitors` for the table;
  - `PassAlerts`, `AlertMails` and `AlertRestarts` for the logs;
  - `Render` and `Holds` for the statistics buffer.

  Lemmas about those functions state what the source promises.

Four behaviours of the code are easy to misread, and the model keeps each:

- **A missing `topic.<i>.name`.** The scan skips that index and goes on
  (`continue`); later indices are still configured.
- **Capacity.** The table fails as soon as it holds 32 topics, so a 32nd
  configured topic fails the configuration.
- **The pass result.** `topic_process` always returns true. It does not report
  how many topics escalated.
- **Statistics truncation.** Truncation is checked only after a monitor's
  entry, so a line can lack text and still succeed in two ways. With no
  monitors the function returns true even when the header itself was cut. And
  a timestamp that does not fit with its terminator makes `strftime` return 0
  and is dropped silently; the closing `)` may then still fit, and the function
  returns true for a line without that timestamp
  (`Stats.DroppedStampStillSucceeds`).

## Model

| member | source | states |
|---|---|---|
| Text.NatToDecimal | mqtt-watchdog.c:187 | `%lu` renders a non-empty digit string with no leading zero |
| Text.IntToDecimal | mqtt-watchdog.c:162 | `%ld` renders a non-empty string that starts with `-` exactly for negative values |
| Text.DecimalRoundTrip | mqtt-watchdog.c:187 | reading back the rendered digits gives the counter |
| Text.DecimalInjective | mqtt-watchdog.c:218 | distinct numbers render differently |
| Text.Fit | mqtt-watchdog.c:81-82 | `snprintf` into a buffer of `size` keeps a prefix, the whole text when it fits, and otherwise `size - 1` characters |
| Config.TopicKeyInjective | mqtt-watchdog.c:218-228 | distinct topic indices read distinct configuration keys |
| Email.SentPayload | include/email_linux.h:30-44 | the uploaded payload is a prefix of the formatted message, at most 4095 characters, and the whole message when it fits in 4096 bytes |
| Email.PayloadIsHeaderBlock | include/email_linux.h:31-39 | the payload is five CRLF-terminated header lines (From, To, Subject, MIME-Version, Content-Type), a blank line, then the content and CRLF |
| Email.ParseRenderedMessage | include/email_linux.h:31-39 | rendered header fields followed by a blank line and a body parse back into those fields and that body |
| Email.HeaderFieldsWellFormed | include/email_linux.h:31-35 | the five header fields have names and CR-free values whenever name, from, to and subject are CR-free |
| Email.PayloadParses | include/email_linux.h:31-39 | when name, from, to and subject hold no CR, the payload parses back into the five header fields and the content |
| Email.ReadStep | include/email_linux.h:15-25 | one callback copies `min(capacity, remaining)` bytes, nothing once the payload is used up, and advances the cursor by what it copied |
| Email.DeliveredInOrder | include/email_linux.h:15-25 | successive callbacks deliver consecutive slices of the payload, in order, with no byte repeated or skipped |
| Email.DeliveredOnce | include/email_linux.h:17-18 | callbacks with enough total room deliver the whole payload, after which the callback returns 0 |
| Email.UploadData.constructor | include/email_linux.h:44 | the upload starts at the beginning of the payload with its full length remaining |
| Email.UploadData.ReadCallback | include/email_linux.h:15-25 | the callback copies the next `ReadStep` bytes of the payload into the buffer, leaves the rest of the buffer alone, and advances the cursor |
| Email.Upload | include/email_linux.h:30-44 | what the transfer uploads for a request is a prefix of its formatted message that fits the 4096-byte buffer |
| Email.SmtpTransport.Perform | include/email_linux.h:45-74 | one transfer appends its request and its result to the transport's log |
| Email.EmailSend | include/email_linux.h:27-75 | `email_send` makes exactly one transfer, of a request holding its arguments, and reports the transfer's result |
| Actions.EmailConfigAsWritten | mqtt-watchdog.c:88-98 | as written, every setting is read from its key; an unset `email-from` defaults to `MQTT Watchdog` and an unset `email-name` to `no-reply@localhost` |
| Actions.EmailConfigFromStore | mqtt-watchdog.c:88-98 | corrected, every setting is read from its key with its default; an unset sender address defaults to `no-reply@localhost` and an unset sender name to `MQTT Watchdog` |
| Actions.SwappedSenderDefaults | mqtt-watchdog.c:93-94 | as written, with nothing configured the sender address is `MQTT Watchdog`, which holds no `@` |
| Actions.DefaultSenderIsAddress | mqtt-watchdog.c:93-94 | corrected, with nothing configured the sender address is `no-reply@localhost` and the name `MQTT Watchdog` |
| Actions.NotificationSubject | mqtt-watchdog.c:81-82 | the mail subject is a prefix of `<subject>: <topic>` that fits its 256-byte buffer |
| Actions.ActionEmailNotification | mqtt-watchdog.c:78-87 | with no recipient or no SMTP server it succeeds without sending; otherwise it sends exactly one mail, the notification of the topic, and reports the transfer's result |
| Actions.ServiceManager.RestartUnit | mqtt-watchdog.c:110 | one restart request is logged with its result |
| Actions.ActionSystemdServiceRestartAsWritten | mqtt-watchdog.c:107-114 | as written, requires a service name (`strlen` reads it, so NULL is undefined); an empty name succeeds without a request, any other makes exactly one |
| Actions.ActionSystemdServiceRestart | mqtt-watchdog.c:107-114 | corrected, an absent or empty service succeeds without a request; any other makes exactly one restart request and reports its result |
| Escalation.Step | mqtt-watchdog.c:156-183 | level 2 takes precedence over level 1; the level fired increments its counter and stamps its time, the other level's counter is untouched; below the warning threshold both flags clear; a restart implies a warning |
| Escalation.PassTotals | mqtt-watchdog.c:153-185 | a pass grows the per-monitor counters, in total, by exactly the escalations it fires at each level |
| Escalation.AlertsMatchCounters | mqtt-watchdog.c:160-180 | a pass dispatches one alert per escalation fired, and none for a quiet monitor |
| Escalation.AlertSubject | mqtt-watchdog.c:162-174 | the alert subject fits its 256-byte buffer |
| Escalation.FindTopic | mqtt-watchdog.c:143-150 | finds the first monitor whose topic equals the message's topic, or reports that none does |
| Escalation.Received | mqtt-watchdog.c:142-152 | a message refreshes the last-message time of the first monitor with that topic and nothing else; an unknown topic changes nothing |
| Escalation.ReceiveKeepsTotals | mqtt-watchdog.c:142-152 | a message leaves the counter totals unchanged |
| Escalation.NewMonitor | mqtt-watchdog.c:222-236 | a configured topic starts unflagged, with zero counters, its last message at `now`, and with positive thresholds it does not fire at once |
| Escalation.ConfiguredIndices | mqtt-watchdog.c:217-221 | the configured indices below `n` are exactly those with a name, in increasing order |
| Escalation.ConfiguredMonitors | mqtt-watchdog.c:212-243 | one fresh monitor per configured index, at most `n` of them |
| Escalation.ConfiguredMonitorsStep | mqtt-watchdog.c:217-243 | scanning one more index appends its monitor exactly when its name is set |
| Escalation.SilenceThenRecovery | mqtt-watchdog.c:142-185 | silent from 0 with thresholds 60/300: warned once at 61; escalated at 301 with level 1 still counted once; after a message at 301 the pass at 302 clears both flags and keeps the counters |
| Escalation.StaysRestarted | mqtt-watchdog.c:156-183 | a restarted monitor that stays silent fires nothing more |
| Escalation.StaysWarned | mqtt-watchdog.c:156-183 | a warned monitor that stays silent never warns again and restarts at most once |
| Escalation.EscalatesAtMostOnce | mqtt-watchdog.c:156-183 | over passes at nondecreasing times (the clock not set back), with ordered thresholds, each level fires at most once |
| Escalation.InvertedThresholdsRefire | mqtt-watchdog.c:160-182 | with the restart threshold below the warning threshold, a silence between them restarts on every pass |
| Stats.Annotation | mqtt-watchdog.c:191-204 | a monitor's annotation is present exactly when one of its counters is nonzero |
| Stats.RunsSpellEntries | mqtt-watchdog.c:188-204 | the calls the loop makes, monitor by monitor in table order, spell out the entries of the line: each topic, after `, ` from the second on, with its annotation |
| Stats.Render | mqtt-watchdog.c:186-211 | the line starts with the global counters; with no monitors it is the header and succeeds; otherwise it reports truncation exactly when the offset reaches `size - 1` |
| Stats.RenderRunsExtends | mqtt-watchdog.c:188-209 | the loop only ever appends to the line |
| Stats.StatsFit | mqtt-watchdog.c:186-211 | when the whole line fits, the function succeeds and accounts for the counters and every topic in table order, annotated |
| Stats.Snprintf | mqtt-watchdog.c:190 | corrected, an `snprintf` call counts its whole text and leaves the buffer holding the line so far, cut and terminated, even once the offset has passed the end |
| Stats.Strftime | mqtt-watchdog.c:195 | a `strftime` call writes and counts the timestamp when it fits with its terminator, and otherwise counts nothing |
| Stats.Emit | mqtt-watchdog.c:190-203 | one formatting call advances the offset by what it counts and keeps the buffer holding the line so far |
| Stats.EmitLevel1 | mqtt-watchdog.c:193-196 | the level-1 calls write and count their part of the entry |
| Stats.EmitLevel2 | mqtt-watchdog.c:197-202 | the level-2 calls write and count their part of the entry |
| Stats.EmitMonitor | mqtt-watchdog.c:190-204 | one monitor's calls write and count its entry |
| Stats.Terminate | mqtt-watchdog.c:205-206 | the explicit terminator on a full line leaves the buffer unchanged |
| Stats.EmitEntry | mqtt-watchdog.c:189-208 | after monitor `i` the line is full exactly when the offset reaches `size - 1`; a full line is what the loop ends with, terminated, and otherwise the loop goes on from there |
| Stats.EmitRuns | mqtt-watchdog.c:188-210 | the loop over the monitors leaves the result and the buffer of the calls of every entry from the header on |
| Stats.StatsToString | mqtt-watchdog.c:186-211 | the result and the buffer are those of `Render`: the buffer holds the line cut to `size - 1` characters and terminated |
| Stats.DroppedStampStillSucceeds | mqtt-watchdog.c:193-207 | success does not mean the whole line fits: in a 32-byte buffer, one monitor with a 10-character topic and a level-1 timeout succeeds with its 19-character timestamp dropped, so the line differs from the full text |
| Stats.StatsFitWithinBuffer | mqtt-watchdog.c:186-211 | when the line fits, every call of the function as written starts within the buffer |
| Stats.LongTopicOverrunsBuffer | mqtt-watchdog.c:190-192 | as written, a 1030-character topic with one level-1 timeout in a 1024-byte buffer starts a call past the end of the buffer |
| Topics.AlertMails | mqtt-watchdog.c:160-180 | with notifications on, one mail per alert; with them off, none |
| Topics.AlertMailsAt | mqtt-watchdog.c:160-180 | the `k`-th mail of a pass is the notification of its `k`-th alert, with the alert's subject |
| Topics.AlertRestarts | mqtt-watchdog.c:160-170 | a pass restarts at most one unit per alert |
| Topics.RestartsAreNamed | mqtt-watchdog.c:107-109 | every unit the pass restarts has a non-empty name |
| Topics.RestartsWithinLevel2 | mqtt-watchdog.c:160-170 | a pass restarts at most one unit per level-2 escalation it fires |
| Topics.TopicTable.constructor | mqtt-watchdog.c:137-140 | the globals start as an empty 32-slot table with zero counters |
| Topics.TopicTable.Configure | mqtt-watchdog.c:212-249 | the table becomes the configured monitors, in index order; it succeeds exactly when at least one and fewer than 32 topics are configured; the global counters are left alone |
| Topics.TopicTable.ConfiguredTable | mqtt-watchdog.c:230-236 | a freshly configured table is well formed and its counters sum to zero |
| Topics.TopicTable.ReceiveMessage | mqtt-watchdog.c:142-152 | the table becomes `Received` of the old table and keeps the global counters equal to the per-monitor sums |
| Topics.TopicTable.Process | mqtt-watchdog.c:153-185 | every monitor takes its step; each global counter grows by the escalations of its level; the mail log gains the pass's mails and the restart log its restarts, in table order, with earlier attempts and their results kept; the pass succeeds and keeps the counters equal to the per-monitor sums |
| Topics.TopicTable.CountEscalation | mqtt-watchdog.c:167-179 | an escalation adds one to the global counter of its level and leaves the other and the table size alone |
| Topics.TopicTable.SetMonitor | mqtt-watchdog.c:157-182 | writing a monitor's new state back replaces that entry alone and keeps the table well formed |
| Topics.TopicTable.CheckMonitor | mqtt-watchdog.c:157-182 | one iteration takes the pass from the first `i` monitors to the first `i + 1` |
| Topics.TopicTable.StatsToString | mqtt-watchdog.c:186-211 | the line rendered from the global counters and the table, into the caller's buffer |
| Topics.Dispatch | mqtt-watchdog.c:158-180 | a monitor's check fires the level `FireLevel` gives; level 2 sends the alert's mail and restarts its service, level 1 sends the mail; earlier log entries are kept |
| Topics.UnsetServiceReachesRestart | mqtt-watchdog.c:224-225 | a topic configured without a service has a NULL service and reaches level 2 after the default 300 s, so the restart action is called with it |

## Left out

- The process around the core is not modelled:
  - `main`, the signal handlers, the interval scheduling and the periodic statistics log;
  - `topic_begin` and `topic_end`, with the startup mail, the subscriptions and the unsubscriptions;
  - the MQTT client (`mqtt_*`), which is foreign code.
- `mqtt_config` and the configuration parser (config_linux.h, util_linux.h) are not part of this model. The store is an abstract set of maps.
- libcurl's setup of the transfer is not modelled: the URL, credentials, TLS options, recipient list and the transfer itself. It is foreign code; the transport logs the request and returns an arbitrary result.
- include/systemd_linux.h (sd-bus) and include/serial_linux.h are foreign adapters and are left out. The restart is a logged request with an arbitrary result.
- `printf`/`fprintf` diagnostics and the `topic_debug` flag (read from `debug` in `topic_config`) only affect logging, and are left out.
- `localtime` and the `%Y-%m-%dT%H:%M:%S` formatting are the parameter `fmt`, since they depend on the time zone.
- Concurrency is not modelled. The MQTT callback can run `topic_receive_message` while a pass runs; the model treats each operation as atomic.
- The relative order of mails and restarts is not captured. They go to two separate logs, each in table order.
- The `return false` inside the statistics loop is a flag that ends the loop (`Stats.EmitRuns`). The result and the buffer are the same.
- Strings are sequences of characters with no embedded NUL, which C strings cannot represent.
- Text is assumed to be ASCII: one character stands for one byte. The C buffers (the 4096-byte payload, the 256-byte subjects, the statistics buffer) count bytes, so for non-ASCII UTF-8 text the model cuts at a different place and computes a different statistics offset than the code does.
- Text.Fit: counts characters, not bytes, so it is `snprintf`'s truncation only for ASCII text.
- Email.SentPayload: the 4096-byte limit is applied to characters, not to the UTF-8 bytes of the payload.
- Actions.NotificationSubject: the 256-byte limit is applied to characters, not bytes.
- Stats.Snprintf: the offset and the room count characters, not bytes.
- Topics.Dispatch: calls the corrected `Actions.ActionSystemdServiceRestart`, so a level-2 escalation of a topic with no service is a no-op here. In the code, line 164 of mqtt-watchdog.c hands the NULL `service_name` to `strlen` (undefined behaviour); see the first finding below.
- Topics.TopicTable.Process: runs the corrected restart action through `Topics.Dispatch`, so it does not model the undefined behaviour of the first level-2 escalation of a topic configured without a service; `Topics.AlertRestarts` lists no unit for such an escalation.
- Escalation.Step: counts with unbounded integers. The source's `unsigned long` counters would wrap after `ULONG_MAX` escalations (2^64 on LP64, 2^32 on ILP32), and `now - last_message` could overflow `time_t`.
- Topics.TopicTable.Process: the global counters are unbounded likewise, with no wrap at `ULONG_MAX`.
- Email.UploadData.ReadCallback: requires `size * nitems` to fit the buffer, and does not model a `size_t` overflow of that product.
- Stats.Strftime: the room counts characters, not bytes. When the timestamp does not fit, it does not model what `strftime` leaves in the buffer. Those bytes lie past the terminator the next call writes, and what the line holds is unaffected.
- Stats.StatsToString: models the room of each call clamped at zero, which is the corrected behaviour. The out-of-bounds writes of the code as written are stated by `Stats.StatsWithinBuffer` and the counterexample below, not executed.

## Findings

| source | as written | input that shows it | evidently intended | confidence | as-written member | corrected member |
|---|---|---|---|---|---|---|
| mqtt-watchdog.c:107-109 | a topic's `service_name` is NULL when `topic.<i>.service` is unset, and the level-2 branch passes it to `action_systemd_service_restart`, whose `strlen` dereferences it | `topic.0.name = sensors` with no `topic.0.service`, silent for 300 s (`Topics.UnsetServiceReachesRestart`) | an absent service is a no-op, like an empty one | high, not executed | Actions.ActionSystemdServiceRestartAsWritten | Actions.ActionSystemdServiceRestart |
| mqtt-watchdog.c:93-94 | the defaults of `email-from` and `email-name` are swapped, so the envelope sender defaults to `MQTT Watchdog` | a configuration without `email-from` | sender address `no-reply@localhost`, display name `MQTT Watchdog` | high, not executed | Actions.SwappedSenderDefaults | Actions.DefaultSenderIsAddress |
| mqtt-watchdog.c:190-205 | the truncation check runs only after a whole monitor, so the offset can pass `size` within one monitor; `size - offset` then wraps around as a `size_t`, and the next `snprintf` writes past the buffer | a 1024-byte buffer and one monitor with a 1030-character topic and a level-1 timeout (`Stats.LongTopicOverrunsBuffer`) | every call's room is clamped at zero once the buffer is full | medium, not executed | Stats.LongTopicOverrunsBuffer | Stats.Snprintf |
