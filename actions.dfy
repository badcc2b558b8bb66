/**
 * The two actions the escalation engine dispatches (mqtt-watchdog.c, lines
 * 63-117): the e-mail notification and the systemd service restart. Each is
 * a guard that turns an empty target into a successful no-op, around a call
 * into a transport whose outcome is outside the model's control.
 */
module Actions {
  import opened Wrappers
  import Config
  import Text
  import Email

  const EmailNameDefault: string := "MQTT Watchdog"
  const EmailFromDefault: string := "no-reply@localhost"
  const EmailToDefault: string := ""
  const EmailSubjectDefault: string := "MQTT Watchdog Alert"
  const EmailSmtpDefault: string := "smtp://localhost:25"
  const EmailUsernameDefault: string := ""
  const EmailPasswordDefault: string := ""
  const EmailUseSslDefault: bool := false

  /** Size of the `subject` buffer in `action_email_notification`, terminator included. */
  const SubjectBufferSize: nat := 256

  /** The notification settings `action_email_config` reads. */
  datatype EmailConfig = EmailConfig(smtp: string, username: string, password: string, useSsl: bool,
                                     from: string, name: string, to: string, subject: string)

  /**
   * `action_email_config` as written: the default of `email-from` is the
   * display name and the default of `email-name` is the address.
   */
  function EmailConfigAsWritten(st: Config.Store): (c: EmailConfig)
    ensures "email-from" !in st.strings ==> c.from == EmailNameDefault
    ensures "email-name" !in st.strings ==> c.name == EmailFromDefault
  {
    EmailConfig(
      Config.GetStringOr(st, "email-smtp", EmailSmtpDefault),
      Config.GetStringOr(st, "email-username", EmailUsernameDefault),
      Config.GetStringOr(st, "email-password", EmailPasswordDefault),
      Config.GetBool(st, "email-use-ssl", EmailUseSslDefault),
      Config.GetStringOr(st, "email-from", EmailNameDefault),
      Config.GetStringOr(st, "email-name", EmailFromDefault),
      Config.GetStringOr(st, "email-to", EmailToDefault),
      Config.GetStringOr(st, "email-subject", EmailSubjectDefault))
  }

  /** `action_email_config` with each key defaulting to its own constant. */
  function EmailConfigFromStore(st: Config.Store): (c: EmailConfig)
    ensures "email-from" !in st.strings ==> c.from == EmailFromDefault
    ensures "email-name" !in st.strings ==> c.name == EmailNameDefault
    ensures c == EmailConfigAsWritten(st).(from := c.from, name := c.name)
  {
    EmailConfig(
      Config.GetStringOr(st, "email-smtp", EmailSmtpDefault),
      Config.GetStringOr(st, "email-username", EmailUsernameDefault),
      Config.GetStringOr(st, "email-password", EmailPasswordDefault),
      Config.GetBool(st, "email-use-ssl", EmailUseSslDefault),
      Config.GetStringOr(st, "email-from", EmailFromDefault),
      Config.GetStringOr(st, "email-name", EmailNameDefault),
      Config.GetStringOr(st, "email-to", EmailToDefault),
      Config.GetStringOr(st, "email-subject", EmailSubjectDefault))
  }

  /**
   * With nothing configured, the code as written hands the transport the
   * display name as the SMTP envelope sender and writes the header
   * `From: no-reply@localhost <MQTT Watchdog>`, whose angle brackets hold no
   * address.
   */
  lemma SwappedSenderDefaults()
    ensures EmailConfigAsWritten(Config.Store(map[], map[], map[])).from == "MQTT Watchdog"
    ensures '@' !in EmailConfigAsWritten(Config.Store(map[], map[], map[])).from
  {
  }

  /** With the defaults each on its own key, the default sender is an address and the display name is the name. */
  lemma DefaultSenderIsAddress()
    ensures EmailConfigFromStore(Config.Store(map[], map[], map[])).from == "no-reply@localhost"
    ensures EmailConfigFromStore(Config.Store(map[], map[], map[])).name == "MQTT Watchdog"
  {
  }

  /** Notification is on only when both a recipient and an SMTP server are configured. */
  predicate NotifyEnabled(c: EmailConfig) {
    c.to != "" && c.smtp != ""
  }

  /** The subject `snprintf(subject, 256, "%s: %s", ...)` leaves: the configured prefix, then the topic text. */
  function NotificationSubject(c: EmailConfig, topic: string): (r: string)
    ensures |r| < SubjectBufferSize
    ensures r <= c.subject + ": " + topic
  {
    Text.Fit(c.subject + ": " + topic, SubjectBufferSize)
  }

  /** The envelope a notification about `topic` hands to the SMTP transport. */
  function NotificationEnvelope(c: EmailConfig, topic: string, content: string): Email.Envelope {
    Email.Envelope(c.smtp, c.username, c.password, c.useSsl, c.name, c.from, c.to,
                   NotificationSubject(c, topic), content)
  }

  /**
   * `action_email_notification`: with no recipient or no server it succeeds
   * without sending; otherwise it sends once and fails exactly when the
   * transfer fails.
   */
  method ActionEmailNotification(c: EmailConfig, topic: string, content: string, transport: Email.SmtpTransport)
    returns (ok: bool)
    modifies transport
    ensures !NotifyEnabled(c) ==> ok && transport.attempts == old(transport.attempts)
    ensures NotifyEnabled(c) ==>
      transport.attempts == old(transport.attempts) + [Email.Attempt(NotificationEnvelope(c, topic, content), ok)]
  {
    if |c.to| == 0 || |c.smtp| == 0 {
      return true;
    }
    var subject := NotificationSubject(c, topic);
    ok := Email.EmailSend(transport, c.smtp, c.username, c.password, c.useSsl, c.name, c.from, c.to, subject, content);
  }

  /** One `RestartUnit` request for a unit, and whether the service manager reported success. */
  datatype RestartAttempt = RestartAttempt(unit: string, done: bool)

  function RestartedUnits(attempts: seq<RestartAttempt>): seq<string> {
    seq(|attempts|, i requires 0 <= i < |attempts| => attempts[i].unit)
  }

  /** One more request adds its unit at the end. */
  lemma RestartedUnitsAppend(attempts: seq<RestartAttempt>, a: RestartAttempt)
    ensures RestartedUnits(attempts + [a]) == RestartedUnits(attempts) + [a.unit]
  {
    assert RestartedUnits(attempts + [a])[..|attempts|] == RestartedUnits(attempts);
  }

  /**
   * `systemd_service_restart` over sd-bus, seen from the watchdog: it records
   * every request, and whether a request succeeds is outside the model's
   * control.
   */
  class ServiceManager {
    var attempts: seq<RestartAttempt>

    constructor ()
      ensures attempts == []
    {
      attempts := [];
    }

    method RestartUnit(unit: string) returns (ok: bool)
      modifies this
      ensures attempts == old(attempts) + [RestartAttempt(unit, ok)]
    {
      ok := *;
      attempts := attempts + [RestartAttempt(unit, ok)];
    }
  }

  /** Restarting is a no-op when the topic has no service, or an empty one. */
  predicate RestartIsNoop(service: Option<string>) {
    service.None? || service.value == ""
  }

  /**
   * `action_systemd_service_restart` as written: `strlen(service_name)` reads
   * the string, so the call is only defined when a service name is present
   * (`service_name` is not NULL).
   */
  method ActionSystemdServiceRestartAsWritten(service: Option<string>, manager: ServiceManager) returns (ok: bool)
    requires service.Some?
    modifies manager
    ensures service.value == "" ==> ok && manager.attempts == old(manager.attempts)
    ensures service.value != "" ==> manager.attempts == old(manager.attempts) + [RestartAttempt(service.value, ok)]
  {
    if |service.value| == 0 {
      return true;
    }
    ok := manager.RestartUnit(service.value);
  }

  /**
   * `action_systemd_service_restart` with an absent service treated like an
   * empty one: a no-op that succeeds without calling the service manager;
   * otherwise one restart request, failing exactly when it fails.
   */
  method ActionSystemdServiceRestart(service: Option<string>, manager: ServiceManager) returns (ok: bool)
    modifies manager
    ensures RestartIsNoop(service) ==> ok && manager.attempts == old(manager.attempts)
    ensures !RestartIsNoop(service) ==> manager.attempts == old(manager.attempts) + [RestartAttempt(service.value, ok)]
  {
    if service.None? || |service.value| == 0 {
      return true;
    }
    ok := manager.RestartUnit(service.value);
  }
}
