/**
 * The mail side of include/email_linux.h: the message payload that
 * `email_send` composes, the read callback through which the SMTP transport
 * pulls that payload out of an upload cursor, and the hand-off of the
 * finished message to the transport.
 *
 * The payload is an Internet Message Format message: header fields as in
 * section 3.6 of RFC 5322, every line ended by CRLF (section 2.1 of RFC 5322),
 * and a `MIME-Version` field as in section 4 of RFC 2045.
 */
module Email {
  import opened Wrappers
  import Text

  /** Size of the `payload` buffer in `email_send`, terminator included. */
  const PayloadBufferSize: nat := 4096

  // ---------------------------------------------------------------------------
  // Payload composition

  /** One header line: `name: value` ended by CRLF. */
  function FieldLine(name: string, value: string): string {
    name + ": " + value + "\r\n"
  }

  /**
   * The text `email_send` formats into its payload buffer, before any
   * truncation: the five header lines of its format string, the empty line,
   * then the content and a final CRLF.
   */
  function Payload(name: string, from: string, to: string, subject: string, content: string): string {
    FieldLine("From", name + " <" + from + ">")
    + FieldLine("To", to)
    + FieldLine("Subject", subject)
    + FieldLine("MIME-Version", "1.0")
    + FieldLine("Content-Type", "text/plain; charset=UTF-8")
    + "\r\n"
    + content + "\r\n"
  }

  /**
   * The bytes actually uploaded: the payload as `snprintf` left it in the
   * 4096-byte buffer, whose `strlen` is the upload length. An oversize
   * payload is not rejected; it goes out cut to 4095 characters.
   */
  function SentPayload(name: string, from: string, to: string, subject: string, content: string): (r: string)
    ensures |r| <= PayloadBufferSize - 1
    ensures r <= Payload(name, from, to, subject, content)
    ensures |Payload(name, from, to, subject, content)| < PayloadBufferSize ==> r == Payload(name, from, to, subject, content)
  {
    Text.Fit(Payload(name, from, to, subject, content), PayloadBufferSize)
  }

  /** A header field: name, colon, value. */
  datatype Field = Field(name: string, value: string)

  /** A message: its header fields in order, then the body after the empty line. */
  datatype Message = Message(fields: seq<Field>, body: string)

  /** The five header fields `email_send` writes, in the order it writes them. */
  function HeaderFields(name: string, from: string, to: string, subject: string): seq<Field> {
    [ Field("From", name + " <" + from + ">"),
      Field("To", to),
      Field("Subject", subject),
      Field("MIME-Version", "1.0"),
      Field("Content-Type", "text/plain; charset=UTF-8") ]
  }

  /** A header block: each field as `name: value` followed by CRLF. */
  function RenderFields(fields: seq<Field>): string {
    if fields == [] then ""
    else FieldLine(fields[0].name, fields[0].value) + RenderFields(fields[1..])
  }

  /** Rendering a header block one field at a time. */
  lemma RenderFieldsCons(f: Field, rest: seq<Field>)
    ensures RenderFields([f] + rest) == FieldLine(f.name, f.value) + RenderFields(rest)
  {
    assert ([f] + rest)[1..] == rest;
  }

  /** The payload is exactly a header block, an empty line, and the content ended by CRLF. */
  lemma PayloadIsHeaderBlock(name: string, from: string, to: string, subject: string, content: string)
    ensures Payload(name, from, to, subject, content)
         == RenderFields(HeaderFields(name, from, to, subject)) + "\r\n" + content + "\r\n"
  {
    var f0, f1, f2 := Field("From", name + " <" + from + ">"), Field("To", to), Field("Subject", subject);
    var f3, f4 := Field("MIME-Version", "1.0"), Field("Content-Type", "text/plain; charset=UTF-8");
    assert HeaderFields(name, from, to, subject) == [f0] + ([f1] + ([f2] + ([f3] + ([f4] + []))));
    RenderFieldsCons(f4, []);
    RenderFieldsCons(f3, [f4] + []);
    RenderFieldsCons(f2, [f3] + ([f4] + []));
    RenderFieldsCons(f1, [f2] + ([f3] + ([f4] + [])));
    RenderFieldsCons(f0, [f1] + ([f2] + ([f3] + ([f4] + []))));
  }

  predicate NoCarriageReturn(s: string) {
    forall i :: 0 <= i < |s| ==> s[i] != '\r'
  }

  /** A field name as RFC 5322 allows it: non-empty, no colon, no line break. */
  predicate IsFieldName(s: string) {
    |s| > 0 && forall i :: 0 <= i < |s| ==> s[i] != ':' && s[i] != '\r'
  }

  predicate WellFormedFields(fields: seq<Field>) {
    forall k :: 0 <= k < |fields| ==> IsFieldName(fields[k].name) && NoCarriageReturn(fields[k].value)
  }

  /** Index of the first CRLF at or after `from`. */
  function FindCrlf(s: string, from: nat): (r: Option<nat>)
    requires from <= |s|
    ensures r.Some? ==> from <= r.value && r.value + 1 < |s| && s[r.value] == '\r' && s[r.value + 1] == '\n'
    ensures r.Some? ==> forall j :: from <= j < r.value ==> !(s[j] == '\r' && s[j + 1] == '\n')
    ensures r.None? ==> forall j :: from <= j < |s| - 1 ==> !(s[j] == '\r' && s[j + 1] == '\n')
    decreases |s| - from
  {
    if from + 1 >= |s| then None
    else if s[from] == '\r' && s[from + 1] == '\n' then Some(from)
    else FindCrlf(s, from + 1)
  }

  /** Index of the first colon in a line. */
  function FindColon(line: string, from: nat): (r: Option<nat>)
    requires from <= |line|
    ensures r.Some? ==> from <= r.value < |line| && line[r.value] == ':'
    ensures r.Some? ==> forall j :: from <= j < r.value ==> line[j] != ':'
    ensures r.None? ==> forall j :: from <= j < |line| ==> line[j] != ':'
    decreases |line| - from
  {
    if from == |line| then None
    else if line[from] == ':' then Some(from)
    else FindColon(line, from + 1)
  }

  /** A header line `name: value` (one optional space after the colon). */
  function ParseField(line: string): Option<Field> {
    match FindColon(line, 0)
    case None => None
    case Some(k) =>
      if k == 0 then None
      else if k + 1 < |line| && line[k + 1] == ' ' then Some(Field(line[..k], line[k + 2..]))
      else Some(Field(line[..k], line[k + 1..]))
  }

  /** Reads header lines up to the empty line; whatever follows it is the body. */
  function ParseMessage(s: string): Option<Message>
    decreases |s|
  {
    match FindCrlf(s, 0)
    case None => None
    case Some(k) =>
      if k == 0 then Some(Message([], s[2..]))
      else match ParseField(s[..k])
        case None => None
        case Some(f) =>
          match ParseMessage(s[k + 2..])
          case None => None
          case Some(m) => Some(Message([f] + m.fields, m.body))
  }

  /** A line without carriage returns ends at its CRLF. */
  lemma FindCrlfAfterLine(line: string, rest: string)
    requires NoCarriageReturn(line)
    ensures FindCrlf(line + "\r\n" + rest, 0) == Some(|line|)
  {
    var s := line + "\r\n" + rest;
    assert s[|line|] == '\r' && s[|line| + 1] == '\n';
    assert forall j :: 0 <= j < |line| ==> s[j] == line[j];
  }

  /** A well-formed header line reads back as the field it renders. */
  lemma ParseRenderedField(f: Field)
    requires IsFieldName(f.name) && NoCarriageReturn(f.value)
    ensures ParseField(f.name + ": " + f.value) == Some(f)
  {
    var line := f.name + ": " + f.value;
    assert line[|f.name|] == ':' && line[|f.name| + 1] == ' ';
    assert forall j :: 0 <= j < |f.name| ==> line[j] == f.name[j];
    assert FindColon(line, 0) == Some(|f.name|);
    assert line[..|f.name|] == f.name;
    assert line[|f.name| + 2..] == f.value;
  }

  /** The rendered line of a well-formed field carries no carriage return. */
  lemma RenderedLineHasNoCarriageReturn(f: Field)
    requires IsFieldName(f.name) && NoCarriageReturn(f.value)
    ensures NoCarriageReturn(f.name + ": " + f.value)
  {
    var line := f.name + ": " + f.value;
    forall i | 0 <= i < |line| ensures line[i] != '\r' {
      if i < |f.name| { assert line[i] == f.name[i]; }
      else if i >= |f.name| + 2 { assert line[i] == f.value[i - |f.name| - 2]; }
    }
  }

  /** Cutting `a + b + c` around a two-character separator `b`. */
  lemma SplitAround(a: string, b: string, c: string)
    requires |b| == 2
    ensures (a + b + c)[..|a|] == a && (a + b + c)[|a| + 2..] == c
  {
  }

  /** One header line, then the rest of the message. */
  lemma ParseStep(line: string, rest: string, f: Field)
    requires |line| > 0 && NoCarriageReturn(line) && ParseField(line) == Some(f)
    ensures ParseMessage(line + "\r\n" + rest)
         == match ParseMessage(rest)
            case None => None
            case Some(m) => Some(Message([f] + m.fields, m.body))
  {
    FindCrlfAfterLine(line, rest);
    SplitAround(line, "\r\n", rest);
  }

  /** Parsing undoes rendering: a header block, an empty line and a body read back as themselves. */
  lemma {:induction false} ParseRenderedMessage(fields: seq<Field>, body: string)
    requires WellFormedFields(fields)
    ensures ParseMessage(RenderFields(fields) + "\r\n" + body) == Some(Message(fields, body))
    decreases |fields|
  {
    if fields == [] {
      FindCrlfAfterLine("", body);
      assert ("" + "\r\n" + body)[2..] == body;
    } else {
      var f := fields[0];
      var line := f.name + ": " + f.value;
      var rest := RenderFields(fields[1..]) + "\r\n" + body;
      assert fields == [f] + fields[1..];
      assert RenderFields(fields) + "\r\n" + body == line + "\r\n" + rest;
      RenderedLineHasNoCarriageReturn(f);
      ParseRenderedField(f);
      ParseStep(line, rest, f);
      ParseRenderedMessage(fields[1..], body);
    }
  }

  /** The five fields `email_send` writes are well formed when the values it is given carry no CR. */
  lemma HeaderFieldsWellFormed(name: string, from: string, to: string, subject: string)
    requires NoCarriageReturn(name) && NoCarriageReturn(from) && NoCarriageReturn(to) && NoCarriageReturn(subject)
    ensures WellFormedFields(HeaderFields(name, from, to, subject))
  {
    var v := name + " <" + from + ">";
    assert NoCarriageReturn(v) by {
      forall i | 0 <= i < |v| ensures v[i] != '\r' {
        if i < |name| { assert v[i] == name[i]; }
        else if |name| + 2 <= i < |name| + 2 + |from| { assert v[i] == from[i - |name| - 2]; }
      }
    }
    assert IsFieldName("MIME-Version") && IsFieldName("Content-Type");
    assert NoCarriageReturn("text/plain; charset=UTF-8");
  }

  /**
   * The composed payload reads back as the five header fields `email_send`
   * writes, followed by the content and its CRLF as the body, provided no
   * header value carries a carriage return of its own.
   */
  lemma PayloadParses(name: string, from: string, to: string, subject: string, content: string)
    requires NoCarriageReturn(name) && NoCarriageReturn(from) && NoCarriageReturn(to) && NoCarriageReturn(subject)
    ensures ParseMessage(Payload(name, from, to, subject, content))
         == Some(Message(HeaderFields(name, from, to, subject), content + "\r\n"))
  {
    var fs := HeaderFields(name, from, to, subject);
    HeaderFieldsWellFormed(name, from, to, subject);
    PayloadIsHeaderBlock(name, from, to, subject, content);
    assert Payload(name, from, to, subject, content) == RenderFields(fs) + "\r\n" + (content + "\r\n");
    ParseRenderedMessage(fs, content + "\r\n");
  }

  // ---------------------------------------------------------------------------
  // Upload cursor and read callback

  /** The position of an `UploadData` cursor: an offset into the payload and the bytes left. */
  datatype Cursor = Cursor(data: nat, remaining: nat)

  function Min(a: nat, b: nat): nat {
    if a < b then a else b
  }

  /**
   * What one call of the read callback does to a cursor when the caller's
   * buffer holds `capacity` bytes: the number of bytes it hands over, and
   * where the cursor stands afterwards.
   */
  function ReadStep(c: Cursor, capacity: nat): (r: (nat, Cursor))
    ensures c.remaining == 0 ==> r == (0, c)
    ensures r.0 <= capacity && r.0 <= c.remaining
    ensures r.0 == capacity || r.0 == c.remaining
    ensures r.1.data + r.1.remaining == c.data + c.remaining
    ensures r.1.data == c.data + r.0
  {
    if c.remaining == 0 then (0, c)
    else
      var n := Min(capacity, c.remaining);
      (n, Cursor(c.data + n, c.remaining - n))
  }

  function Sum(caps: seq<nat>): nat {
    if caps == [] then 0 else caps[0] + Sum(caps[1..])
  }

  /** The bytes a run of callback calls hands over, concatenated, for buffers of the given sizes. */
  function Delivered(payload: string, c: Cursor, caps: seq<nat>): string
    requires c.data + c.remaining <= |payload|
    decreases |caps|
  {
    if caps == [] then ""
    else
      var (n, next) := ReadStep(c, caps[0]);
      payload[c.data..c.data + n] + Delivered(payload, next, caps[1..])
  }

  /** The cursor after a run of callback calls. */
  function After(c: Cursor, caps: seq<nat>): Cursor
    decreases |caps|
  {
    if caps == [] then c else After(ReadStep(c, caps[0]).1, caps[1..])
  }

  /**
   * Repeated calls deliver the bytes at the cursor once each, in order, and
   * never past its end: whatever the buffer sizes, the calls together hand
   * over exactly the next `min(total capacity, remaining)` bytes.
   */
  lemma {:induction false} DeliveredInOrder(payload: string, c: Cursor, caps: seq<nat>)
    requires c.data + c.remaining <= |payload|
    ensures Delivered(payload, c, caps) == payload[c.data..c.data + Min(Sum(caps), c.remaining)]
    ensures After(c, caps) == Cursor(c.data + Min(Sum(caps), c.remaining), c.remaining - Min(Sum(caps), c.remaining))
    decreases |caps|
  {
    if caps != [] {
      var (n, next) := ReadStep(c, caps[0]);
      DeliveredInOrder(payload, next, caps[1..]);
      var k := Min(Sum(caps[1..]), next.remaining);
      assert payload[c.data..c.data + n] + payload[next.data..next.data + k]
          == payload[c.data..c.data + n + k];
    }
  }

  /**
   * Starting from the whole payload, once the buffers offered add up to at
   * least its length the payload has been delivered in full, and every
   * further call returns 0.
   */
  lemma DeliveredOnce(payload: string, caps: seq<nat>, capacity: nat)
    requires Sum(caps) >= |payload|
    ensures Delivered(payload, Cursor(0, |payload|), caps) == payload
    ensures ReadStep(After(Cursor(0, |payload|), caps), capacity).0 == 0
  {
    DeliveredInOrder(payload, Cursor(0, |payload|), caps);
    assert payload[0..|payload|] == payload;
  }

  /**
   * The `UploadData` record: `data` points into the payload buffer and
   * `remaining_size` bytes are left to send. The buffer is `memory`; the
   * position `data` is an offset into it.
   */
  class UploadData {
    const memory: string
    var data: nat
    var remainingSize: nat

    ghost predicate Valid()
      reads this
    {
      data + remainingSize <= |memory|
    }

    /** `{ .data = payload, .remaining_size = strlen(payload) }` */
    constructor (payload: string)
      ensures Valid()
      ensures memory == payload && data == 0 && remainingSize == |payload|
    {
      memory := payload;
      data := 0;
      remainingSize := |payload|;
    }

    /**
     * `__curl_payload_read_callback`: copies the next bytes at the cursor
     * into the caller's buffer of `size * nitems` bytes and advances the
     * cursor past them.
     */
    method ReadCallback(buffer: array<char>, size: nat, nitems: nat) returns (n: nat)
      requires Valid()
      requires size * nitems <= buffer.Length
      modifies this, buffer
      ensures Valid()
      ensures (n, Cursor(data, remainingSize)) == ReadStep(Cursor(old(data), old(remainingSize)), size * nitems)
      ensures buffer[..n] == memory[old(data)..old(data) + n]
      ensures buffer[n..] == old(buffer[n..])
    {
      if remainingSize == 0 {
        return 0;
      }
      var bufferSize := size * nitems;
      var toCopy := if bufferSize < remainingSize then bufferSize else remainingSize;
      forall i | 0 <= i < toCopy {
        buffer[i] := memory[data + i];
      }
      data := data + toCopy;
      remainingSize := remainingSize - toCopy;
      n := toCopy;
    }
  }

  // ---------------------------------------------------------------------------
  // Hand-off to the SMTP transport

  /** The arguments of one `email_send` call: server, credentials, TLS flag, sender, recipient and message. */
  datatype Envelope = Envelope(server: string, username: string, password: string, useSsl: bool,
                               name: string, from: string, to: string, subject: string, content: string)

  /** The bytes `email_send` uploads for an envelope: its payload, cut to the payload buffer. */
  function Upload(e: Envelope): (r: string)
    ensures |r| < PayloadBufferSize
    ensures r <= Payload(e.name, e.from, e.to, e.subject, e.content)
  {
    SentPayload(e.name, e.from, e.to, e.subject, e.content)
  }

  /** One transfer the transport was asked to make, and whether it reported success. */
  datatype Attempt = Attempt(envelope: Envelope, delivered: bool)

  function Envelopes(attempts: seq<Attempt>): seq<Envelope> {
    seq(|attempts|, i requires 0 <= i < |attempts| => attempts[i].envelope)
  }

  /** One more attempt adds its envelope at the end. */
  lemma EnvelopesAppend(attempts: seq<Attempt>, a: Attempt)
    ensures Envelopes(attempts + [a]) == Envelopes(attempts) + [a.envelope]
  {
    assert Envelopes(attempts + [a])[..|attempts|] == Envelopes(attempts);
  }

  /**
   * The SMTP transfer through libcurl, seen from the watchdog: it is handed
   * the envelope and the upload cursor over its payload (`MAIL FROM` is the
   * sender, `RCPT TO` the recipient), records the transfer, and whether the
   * transfer succeeds is outside the model's control.
   */
  class SmtpTransport {
    var attempts: seq<Attempt>

    constructor ()
      ensures attempts == []
    {
      attempts := [];
    }

    method Perform(e: Envelope, upload: UploadData) returns (ok: bool)
      requires upload.memory == Upload(e) && upload.data == 0 && upload.remainingSize == |upload.memory|
      modifies this
      ensures attempts == old(attempts) + [Attempt(e, ok)]
    {
      ok := *;
      attempts := attempts + [Attempt(e, ok)];
    }
  }

  /**
   * `email_send`: composes the payload, hands it with the envelope to the
   * transport through an upload cursor at its start, and reports the
   * transport's outcome.
   */
  method EmailSend(transport: SmtpTransport, server: string, username: string, password: string, useSsl: bool,
                   name: string, from: string, to: string, subject: string, content: string) returns (ok: bool)
    modifies transport
    ensures transport.attempts
         == old(transport.attempts) + [Attempt(Envelope(server, username, password, useSsl, name, from, to, subject, content), ok)]
  {
    var payload := SentPayload(name, from, to, subject, content);
    var upload := new UploadData(payload);
    ok := transport.Perform(Envelope(server, username, password, useSsl, name, from, to, subject, content), upload);
  }
}
