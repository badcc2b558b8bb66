/**
 * The statistics line of `topic_stats_to_string` (mqtt-watchdog.c, lines
 * 186-211): the global counters, then every topic in table order, annotated
 * with its per-level counts and last-fire times when it has escalated. The
 * line is written into a bounded caller buffer with `snprintf` and
 * `strftime`; the offset accumulates what each call reports, and the
 * function reports truncation once the offset reaches the end of the buffer.
 *
 * Timestamps are rendered by a caller-supplied `fmt`, standing for
 * `strftime("%Y-%m-%dT%H:%M:%S", localtime(t))`.
 */
module Stats {
  import Text
  import Wrappers
  import Escalation

  /** One formatting call: `snprintf` of a text, or `strftime` of a timestamp. */
  datatype Piece = Printed(text: string) | Stamp(text: string)

  /** `"L1=%lu, L2=%lu: "` of the global counters. */
  function Header(l1: nat, l2: nat): string {
    "L1=" + Text.NatToDecimal(l1) + ", L2=" + Text.NatToDecimal(l2) + ": "
  }

  /** The `L1=<count>/<time>` calls, made when the monitor has level-1 timeouts. */
  function Level1Pieces(m: Escalation.Monitor, fmt: int -> string): seq<Piece> {
    if m.level1Timeouts > 0
    then [Printed("L1=" + Text.NatToDecimal(m.level1Timeouts) + "/"), Stamp(fmt(m.lastLevel1Time))]
    else []
  }

  /** The `L2=<count>/<time>` calls, after a `, ` when level 1 was printed too. */
  function Level2Pieces(m: Escalation.Monitor, fmt: int -> string): seq<Piece> {
    if m.level2Timeouts > 0
    then (if m.level1Timeouts > 0 then [Printed(", ")] else [])
         + [Printed("L2=" + Text.NatToDecimal(m.level2Timeouts) + "/"), Stamp(fmt(m.lastLevel2Time))]
    else []
  }

  /** The ` (...)` calls, made only when some counter of the monitor is nonzero. */
  function AnnotationPieces(m: Escalation.Monitor, fmt: int -> string): seq<Piece> {
    if m.level1Timeouts > 0 || m.level2Timeouts > 0
    then [Printed(" (")] + Level1Pieces(m, fmt) + Level2Pieces(m, fmt) + [Printed(")")]
    else []
  }

  /** The formatting calls the loop makes for one monitor, in order. */
  function MonitorPieces(m: Escalation.Monitor, first: bool, fmt: int -> string): seq<Piece> {
    [Printed((if first then "" else ", ") + m.topic)] + AnnotationPieces(m, fmt)
  }

  function Level1Text(m: Escalation.Monitor, fmt: int -> string): string {
    if m.level1Timeouts > 0 then "L1=" + Text.NatToDecimal(m.level1Timeouts) + "/" + fmt(m.lastLevel1Time) else ""
  }

  function Level2Text(m: Escalation.Monitor, fmt: int -> string): string {
    if m.level2Timeouts > 0
    then (if m.level1Timeouts > 0 then ", " else "") + "L2=" + Text.NatToDecimal(m.level2Timeouts) + "/" + fmt(m.lastLevel2Time)
    else ""
  }

  /** The annotation of a monitor when every timestamp fits: present exactly when a counter is nonzero. */
  function Annotation(m: Escalation.Monitor, fmt: int -> string): (r: string)
    ensures r == "" <==> m.level1Timeouts == 0 && m.level2Timeouts == 0
  {
    if m.level1Timeouts == 0 && m.level2Timeouts == 0 then ""
    else " (" + Level1Text(m, fmt) + Level2Text(m, fmt) + ")"
  }

  /** One monitor's entry: separator, topic and annotation. */
  function MonitorText(m: Escalation.Monitor, first: bool, fmt: int -> string): string {
    (if first then "" else ", ") + m.topic + Annotation(m, fmt)
  }

  /** The entries of `ms[i..]`, in table order; only the entry at index 0 has no separator. */
  function EntriesFrom(ms: seq<Escalation.Monitor>, i: nat, fmt: int -> string): string
    requires i <= |ms|
    decreases |ms| - i
  {
    if i == |ms| then "" else MonitorText(ms[i], i == 0, fmt) + EntriesFrom(ms, i + 1, fmt)
  }

  /** The whole statistics line, as it reads when the buffer is large enough. */
  function FullText(l1: nat, l2: nat, ms: seq<Escalation.Monitor>, fmt: int -> string): string {
    Header(l1, l2) + EntriesFrom(ms, 0, fmt)
  }

  /**
   * What a call adds at offset `offset` in a buffer of `size` bytes:
   * `snprintf` always counts its whole text; `strftime` counts its text only
   * when it fits with the terminator, and otherwise adds nothing.
   */
  function Shown(p: Piece, offset: nat, size: nat): string {
    match p
    case Printed(t) => t
    case Stamp(t) => if offset + |t| + 1 <= size then t else ""
  }

  /** The text the offset accounts for after a run of calls starting from `text`. */
  function RenderPieces(text: string, ps: seq<Piece>, size: nat): (r: string)
    ensures |text| <= |r|
    decreases |ps|
  {
    if ps == [] then text
    else
      var t := RenderPieces(text, ps[..|ps| - 1], size);
      t + Shown(ps[|ps| - 1], |t|, size)
  }

  /** The formatting calls the loop makes for each monitor of the table, in table order. */
  function Runs(ms: seq<Escalation.Monitor>, fmt: int -> string): seq<seq<Piece>> {
    seq(|ms|, k requires 0 <= k < |ms| => MonitorPieces(ms[k], k == 0, fmt))
  }

  /**
   * The loop from monitor `i` on, each monitor being its run of calls, with
   * `text` accounted for so far: after each monitor it stops and reports
   * truncation once the offset has reached `size - 1`.
   */
  function RenderRuns(text: string, runs: seq<seq<Piece>>, i: nat, size: nat): (r: (string, bool))
    requires i <= |runs| && size >= 1
    ensures |text| <= |r.0|
    ensures i < |runs| ==> (r.1 <==> |r.0| < size - 1)
    decreases |runs| - i
  {
    if i == |runs| then (text, true)
    else
      var t := RenderPieces(text, runs[i], size);
      if |t| >= size - 1 then (t, false) else RenderRuns(t, runs, i + 1, size)
  }

  /** The text `topic_stats_to_string` accounts for, and whether it reports success. */
  function Render(l1: nat, l2: nat, ms: seq<Escalation.Monitor>, size: nat, fmt: int -> string): (r: (string, bool))
    requires size >= 1
    ensures Header(l1, l2) <= r.0
    ensures ms == [] ==> r == (Header(l1, l2), true)
    ensures ms != [] ==> (!r.1 <==> |r.0| >= size - 1)
  {
    RenderRunsExtends(Header(l1, l2), Runs(ms, fmt), 0, size);
    RenderRuns(Header(l1, l2), Runs(ms, fmt), 0, size)
  }

  /** The calls only ever add to the text accounted for. */
  lemma {:induction false} RenderPiecesExtends(text: string, ps: seq<Piece>, size: nat)
    ensures text <= RenderPieces(text, ps, size)
    decreases |ps|
  {
    if ps != [] {
      RenderPiecesExtends(text, ps[..|ps| - 1], size);
    }
  }

  /** The loop only ever adds to the text accounted for. */
  lemma {:induction false} RenderRunsExtends(text: string, runs: seq<seq<Piece>>, i: nat, size: nat)
    requires i <= |runs| && size >= 1
    ensures text <= RenderRuns(text, runs, i, size).0
    decreases |runs| - i
  {
    if i < |runs| {
      var t := RenderPieces(text, runs[i], size);
      RenderPiecesExtends(text, runs[i], size);
      if |t| < size - 1 {
        RenderRunsExtends(t, runs, i + 1, size);
      }
    }
  }

  /** The C string in the buffer: the text cut to `|buf| - 1` characters, then the terminator. */
  predicate Holds(buf: seq<char>, text: string)
    requires |buf| >= 1
  {
    var n := if |text| < |buf| - 1 then |text| else |buf| - 1;
    n <= |text| && buf[..n] == text[..n] && buf[n] == '\0'
  }

  // ---------------------------------------------------------------------------
  // The line when it fits

  function PiecesText(ps: seq<Piece>): string
    decreases |ps|
  {
    if ps == [] then "" else PiecesText(ps[..|ps| - 1]) + ps[|ps| - 1].text
  }

  lemma {:induction false} PiecesTextAppend(a: seq<Piece>, b: seq<Piece>)
    ensures PiecesText(a + b) == PiecesText(a) + PiecesText(b)
    decreases |b|
  {
    if b == [] {
      assert a + b == a;
    } else {
      var init, last := b[..|b| - 1], b[|b| - 1];
      assert (a + b)[..|a + b| - 1] == a + init;
      assert (a + b)[|a + b| - 1] == last;
      PiecesTextAppend(a, init);
    }
  }

  lemma PiecesTextSingle(p: Piece)
    ensures PiecesText([p]) == p.text
  {
    assert [p][..0] == [];
  }

  lemma PiecesTextPair(p: Piece, q: Piece)
    ensures PiecesText([p, q]) == p.text + q.text
  {
    assert [p, q][..1] == [p];
    PiecesTextSingle(p);
  }

  lemma Level1PiecesSpell(m: Escalation.Monitor, fmt: int -> string)
    ensures PiecesText(Level1Pieces(m, fmt)) == Level1Text(m, fmt)
  {
    if m.level1Timeouts > 0 {
      PiecesTextPair(Level1Pieces(m, fmt)[0], Level1Pieces(m, fmt)[1]);
    }
  }

  lemma Level2PiecesSpell(m: Escalation.Monitor, fmt: int -> string)
    ensures PiecesText(Level2Pieces(m, fmt)) == Level2Text(m, fmt)
  {
    if m.level2Timeouts > 0 {
      var sep: seq<Piece> := if m.level1Timeouts > 0 then [Printed(", ")] else [];
      var tail := [Printed("L2=" + Text.NatToDecimal(m.level2Timeouts) + "/"), Stamp(fmt(m.lastLevel2Time))];
      PiecesTextPair(tail[0], tail[1]);
      if sep != [] { PiecesTextSingle(sep[0]); }
      PiecesTextAppend(sep, tail);
    }
  }

  lemma AnnotationPiecesSpell(m: Escalation.Monitor, fmt: int -> string)
    ensures PiecesText(AnnotationPieces(m, fmt)) == Annotation(m, fmt)
  {
    if m.level1Timeouts > 0 || m.level2Timeouts > 0 {
      var l1, l2 := Level1Pieces(m, fmt), Level2Pieces(m, fmt);
      var open, close := [Printed(" (")], [Printed(")")];
      Level1PiecesSpell(m, fmt);
      Level2PiecesSpell(m, fmt);
      PiecesTextSingle(open[0]);
      PiecesTextSingle(close[0]);
      PiecesTextAppend(open, l1);
      PiecesTextAppend(open + l1, l2);
      PiecesTextAppend(open + l1 + l2, close);
    }
  }

  /** Every call counted at full length spells out the monitor's entry. */
  lemma MonitorPiecesSpellEntry(m: Escalation.Monitor, first: bool, fmt: int -> string)
    ensures PiecesText(MonitorPieces(m, first, fmt)) == MonitorText(m, first, fmt)
  {
    var head := [Printed((if first then "" else ", ") + m.topic)];
    PiecesTextSingle(head[0]);
    AnnotationPiecesSpell(m, fmt);
    PiecesTextAppend(head, AnnotationPieces(m, fmt));
  }

  /** With room to spare, every call is counted in full, timestamps included. */
  lemma {:induction false} RenderPiecesFits(text: string, ps: seq<Piece>, size: nat)
    requires |text| + |PiecesText(ps)| < size
    ensures RenderPieces(text, ps, size) == text + PiecesText(ps)
    decreases |ps|
  {
    if ps != [] {
      var init := ps[..|ps| - 1];
      RenderPiecesFits(text, init, size);
    }
  }

  /** The full text of the runs from `i` on. */
  function RunsText(runs: seq<seq<Piece>>, i: nat): string
    requires i <= |runs|
    decreases |runs| - i
  {
    if i == |runs| then "" else PiecesText(runs[i]) + RunsText(runs, i + 1)
  }

  /** The runs of the monitors spell out their entries. */
  lemma {:induction false} RunsSpellEntries(ms: seq<Escalation.Monitor>, i: nat, fmt: int -> string)
    requires i <= |ms|
    ensures RunsText(Runs(ms, fmt), i) == EntriesFrom(ms, i, fmt)
    decreases |ms| - i
  {
    if i < |ms| {
      MonitorPiecesSpellEntry(ms[i], i == 0, fmt);
      RunsSpellEntries(ms, i + 1, fmt);
    }
  }

  /** Runs that fit with room to spare are counted in full and the loop runs to the end. */
  lemma {:induction false} RenderRunsFits(text: string, runs: seq<seq<Piece>>, i: nat, size: nat)
    requires i <= |runs| && size >= 1
    requires |text| + |RunsText(runs, i)| < size - 1
    ensures RenderRuns(text, runs, i, size) == (text + RunsText(runs, i), true)
    decreases |runs| - i
  {
    if i == |runs| {
      assert text + RunsText(runs, i) == text;
    } else {
      var run, rest := PiecesText(runs[i]), RunsText(runs, i + 1);
      RenderPiecesFits(text, runs[i], size);
      RenderRunsFits(text + run, runs, i + 1, size);
      assert (text + run) + rest == text + (run + rest);
    }
  }

  /**
   * When the whole line fits in the buffer with its terminator and a byte to
   * spare, `topic_stats_to_string` reports success and the buffer holds the
   * whole line: the counters, then every topic in table order.
   */
  lemma StatsFit(l1: nat, l2: nat, ms: seq<Escalation.Monitor>, size: nat, fmt: int -> string)
    requires size >= 1 && |FullText(l1, l2, ms, fmt)| < size - 1
    ensures Render(l1, l2, ms, size, fmt) == (FullText(l1, l2, ms, fmt), true)
  {
    RunsSpellEntries(ms, 0, fmt);
    RenderRunsFits(Header(l1, l2), Runs(ms, fmt), 0, size);
  }

  /**
   * The converse of `StatsFit` does not hold: a timestamp that does not fit
   * is dropped and the line still succeeds. In a 32-byte buffer, one monitor
   * with a 10-character topic and one level-1 timeout brings the offset to
   * 29 before its 19-character timestamp, which `strftime` then refuses;
   * the closing `)` takes the offset only to 30, so the check after the
   * monitor passes and the function reports success for a line that lacks
   * the timestamp.
   */
  lemma DroppedStampStillSucceeds(topic: string, fmt: int -> string)
    requires |topic| == 10 && |fmt(0)| == 19
    ensures var m := Escalation.Monitor(topic, Wrappers.None, 60, 300, 0, true, false, 1, 0, 0, 0);
            && Render(0, 0, [m], 32, fmt) == (Header(0, 0) + topic + " (L1=1/)", true)
            && Render(0, 0, [m], 32, fmt).0 != FullText(0, 0, [m], fmt)
  {
    var m := Escalation.Monitor(topic, Wrappers.None, 60, 300, 0, true, false, 1, 0, 0, 0);
    var text := Header(0, 0);
    assert |text| == 12 by {
      assert Text.NatToDecimal(0) == "0";
    }
    var ps := OneLevel1Pieces(topic, fmt);
    assert Runs([m], fmt) == [ps];
    FivePieces(text, topic, " (", "L1=1/", fmt(0), ")", 32);
    var t := RenderPieces(text, ps, 32);
    assert t == text + topic + " (" + "L1=1/" + ")";
    assert t == text + topic + " (L1=1/)" by {
      assert " (" + "L1=1/" + ")" == " (L1=1/)";
      assert text + topic + " (" + "L1=1/" + ")" == text + topic + (" (" + "L1=1/" + ")");
    }
    assert RenderRuns(text, [ps], 0, 32) == (t, true);
    assert |FullText(0, 0, [m], fmt)| > |t| by {
      assert EntriesFrom([m], 0, fmt) == MonitorText(m, true, fmt);
    }
  }

  /** The calls for the first monitor when it has one level-1 timeout, at time 0, and none at level 2. */
  lemma OneLevel1Pieces(topic: string, fmt: int -> string) returns (ps: seq<Piece>)
    ensures ps == [Printed(topic), Printed(" ("), Printed("L1=1/"), Stamp(fmt(0)), Printed(")")]
    ensures ps == MonitorPieces(Escalation.Monitor(topic, Wrappers.None, 60, 300, 0, true, false, 1, 0, 0, 0), true, fmt)
  {
    var m := Escalation.Monitor(topic, Wrappers.None, 60, 300, 0, true, false, 1, 0, 0, 0);
    assert "" + topic == topic;
    assert Text.NatToDecimal(1) == "1";
    assert "L1=" + Text.NatToDecimal(1) + "/" == "L1=1/";
    assert Level1Pieces(m, fmt) == [Printed("L1=1/"), Stamp(fmt(0))];
    assert Level2Pieces(m, fmt) == [];
    ps := [Printed(topic), Printed(" ("), Printed("L1=1/"), Stamp(fmt(0)), Printed(")")];
  }

  /** Three texts, a timestamp and a text: the timestamp counts only when it fits with its terminator. */
  lemma FivePieces(text: string, a: string, b: string, c: string, stamp: string, d: string, size: nat)
    ensures RenderPieces(text, [Printed(a), Printed(b), Printed(c), Stamp(stamp), Printed(d)], size)
         == text + a + b + c + (if |text + a + b + c| + |stamp| + 1 <= size then stamp else "") + d
  {
    var ps := [Printed(a), Printed(b), Printed(c), Stamp(stamp), Printed(d)];
    assert ps[..1][..0] == [] && ps[..2][..1] == ps[..1] && ps[..3][..2] == ps[..2];
    assert ps[..4][..3] == ps[..3] && ps[..5] == ps && ps[..5][..4] == ps[..4];
    assert RenderPieces(text, ps[..0], size) == text;
    assert RenderPieces(text, ps[..1], size) == text + a;
    assert RenderPieces(text, ps[..2], size) == text + a + b;
    assert RenderPieces(text, ps[..3], size) == text + a + b + c;
  }

  // ---------------------------------------------------------------------------
  // The buffer writes

  /** Copies `t` to `offset` and terminates it, leaving what precedes `offset` alone. */
  method Put(buffer: array<char>, offset: nat, t: string)
    requires offset + |t| < buffer.Length
    modifies buffer
    ensures buffer[..offset + |t|] == old(buffer[..offset]) + t
    ensures buffer[offset + |t|] == '\0'
  {
    forall j | 0 <= j < |t| {
      buffer[offset + j] := t[j];
    }
    buffer[offset + |t|] := '\0';
    assert buffer[..offset + |t|] == old(buffer[..offset]) + t;
  }

  /**
   * `offset += snprintf(buffer + offset, size - offset, "%s", s)`, with the
   * room clamped to 0 once the offset has passed the end of the buffer.
   */
  method Snprintf(buffer: array<char>, offset: nat, s: string, ghost text: string) returns (n: nat)
    requires buffer.Length >= 1 && |text| == offset
    requires offset == 0 || Holds(buffer[..], text)
    modifies buffer
    ensures n == |Shown(Printed(s), offset, buffer.Length)|
    ensures Holds(buffer[..], text + Shown(Printed(s), offset, buffer.Length))
  {
    if offset < buffer.Length {
      var room := buffer.Length - offset;
      var k := if |s| < room then |s| else room - 1;
      Put(buffer, offset, s[..k]);
      assert (text + s)[..offset + k] == text + s[..k];
    } else {
      assert (text + s)[..buffer.Length - 1] == text[..buffer.Length - 1];
    }
    n := |s|;
  }

  /**
   * `offset += strftime(buffer + offset, size - offset, ...)` of an already
   * formatted timestamp `s`: written with its terminator when it fits,
   * otherwise nothing is counted (what `strftime` leaves in the buffer then is
   * beyond the terminator the next call writes, and is not modelled).
   */
  method Strftime(buffer: array<char>, offset: nat, s: string, ghost text: string) returns (n: nat)
    requires buffer.Length >= 1 && |text| == offset && Holds(buffer[..], text)
    modifies buffer
    ensures n == |Shown(Stamp(s), offset, buffer.Length)|
    ensures Holds(buffer[..], text + Shown(Stamp(s), offset, buffer.Length))
  {
    if offset + |s| + 1 <= buffer.Length {
      Put(buffer, offset, s);
      n := |s|;
    } else {
      assert text + "" == text;
      n := 0;
    }
  }

  /** One `snprintf` or `strftime` call of the loop, as a piece. */
  method Emit(buffer: array<char>, offset: nat, p: Piece, ghost text: string) returns (next: nat)
    requires buffer.Length >= 1 && |text| == offset && Holds(buffer[..], text)
    modifies buffer
    ensures next == |text + Shown(p, offset, buffer.Length)|
    ensures Holds(buffer[..], text + Shown(p, offset, buffer.Length))
  {
    var n;
    match p {
      case Printed(s) => n := Snprintf(buffer, offset, s, text);
      case Stamp(s) => n := Strftime(buffer, offset, s, text);
    }
    next := offset + n;
  }

  /** Running calls one after another is running the first ones, then the rest. */
  lemma {:induction false} RenderPiecesAppend(text: string, a: seq<Piece>, b: seq<Piece>, size: nat)
    ensures RenderPieces(text, a + b, size) == RenderPieces(RenderPieces(text, a, size), b, size)
    decreases |b|
  {
    if b == [] {
      assert a + b == a;
    } else {
      var init, last := b[..|b| - 1], b[|b| - 1];
      assert (a + b)[..|a + b| - 1] == a + init;
      assert (a + b)[|a + b| - 1] == last;
      RenderPiecesAppend(text, a, init, size);
    }
  }

  lemma RenderPiecesPair(text: string, p: Piece, q: Piece, size: nat)
    ensures RenderPieces(text, [p, q], size)
         == var t := text + Shown(p, |text|, size); t + Shown(q, |t|, size)
  {
    assert [p, q][..1] == [p];
    assert [p][..0] == [];
    assert RenderPieces(text, [p], size) == RenderPieces(text, [], size) + Shown(p, |text|, size);
  }

  /** Two calls in a row. */
  method EmitPair(buffer: array<char>, offset: nat, p: Piece, q: Piece, ghost text: string)
    returns (next: nat, ghost after: string)
    requires buffer.Length >= 1 && |text| == offset && Holds(buffer[..], text)
    modifies buffer
    ensures after == RenderPieces(text, [p, q], buffer.Length)
    ensures next == |after| && Holds(buffer[..], after)
  {
    next := Emit(buffer, offset, p, text);
    ghost var mid := text + Shown(p, offset, buffer.Length);
    next := Emit(buffer, next, q, mid);
    after := mid + Shown(q, |mid|, buffer.Length);
    RenderPiecesPair(text, p, q, buffer.Length);
  }

  /** The `if (level1_timeouts > 0)` block. */
  method EmitLevel1(buffer: array<char>, offset: nat, m: Escalation.Monitor, fmt: int -> string, ghost text: string)
    returns (next: nat, ghost after: string)
    requires buffer.Length >= 1 && |text| == offset && Holds(buffer[..], text)
    modifies buffer
    ensures after == RenderPieces(text, Level1Pieces(m, fmt), buffer.Length)
    ensures next == |after| && Holds(buffer[..], after)
  {
    next, after := offset, text;
    if m.level1Timeouts > 0 {
      next, after := EmitPair(buffer, offset, Printed("L1=" + Text.NatToDecimal(m.level1Timeouts) + "/"),
                              Stamp(fmt(m.lastLevel1Time)), text);
    }
  }

  /** The `if (level2_timeouts > 0)` block. */
  method EmitLevel2(buffer: array<char>, offset: nat, m: Escalation.Monitor, fmt: int -> string, ghost text: string)
    returns (next: nat, ghost after: string)
    requires buffer.Length >= 1 && |text| == offset && Holds(buffer[..], text)
    modifies buffer
    ensures after == RenderPieces(text, Level2Pieces(m, fmt), buffer.Length)
    ensures next == |after| && Holds(buffer[..], after)
  {
    next, after := offset, text;
    if m.level2Timeouts > 0 {
      var sep: seq<Piece> := [];
      if m.level1Timeouts > 0 {
        sep := [Printed(", ")];
        next := Emit(buffer, next, sep[0], after);
        after := after + Shown(sep[0], |after|, buffer.Length);
        assert [sep[0]][..0] == [];
      }
      assert after == RenderPieces(text, sep, buffer.Length);
      var tail := [Printed("L2=" + Text.NatToDecimal(m.level2Timeouts) + "/"), Stamp(fmt(m.lastLevel2Time))];
      next, after := EmitPair(buffer, next, tail[0], tail[1], after);
      RenderPiecesAppend(text, sep, tail, buffer.Length);
    }
  }

  /** The body of the loop for one monitor: its entry, written into the buffer call by call. */
  method EmitMonitor(buffer: array<char>, offset: nat, m: Escalation.Monitor, first: bool, fmt: int -> string,
                     ghost text: string) returns (next: nat, ghost after: string)
    requires buffer.Length >= 1 && |text| == offset && Holds(buffer[..], text)
    modifies buffer
    ensures after == RenderPieces(text, MonitorPieces(m, first, fmt), buffer.Length)
    ensures next == |after| && Holds(buffer[..], after)
  {
    var size := buffer.Length;
    var head := Printed((if first then "" else ", ") + m.topic);
    next := Emit(buffer, offset, head, text);
    after := text + Shown(head, offset, size);
    assert [head][..0] == [];
    ghost var t0 := after;
    if m.level1Timeouts > 0 || m.level2Timeouts > 0 {
      var open := Printed(" (");
      next := Emit(buffer, next, open, after);
      after := after + Shown(open, |after|, size);
      assert [open][..0] == [];
      ghost var t1 := after;
      next, after := EmitLevel1(buffer, next, m, fmt, after);
      ghost var t2 := after;
      next, after := EmitLevel2(buffer, next, m, fmt, after);
      ghost var t3 := after;
      var close := Printed(")");
      next := Emit(buffer, next, close, after);
      after := after + Shown(close, |after|, size);
      assert [close][..0] == [];
      RenderPiecesAppend(t0, [open], Level1Pieces(m, fmt), size);
      RenderPiecesAppend(t0, [open] + Level1Pieces(m, fmt), Level2Pieces(m, fmt), size);
      RenderPiecesAppend(t0, [open] + Level1Pieces(m, fmt) + Level2Pieces(m, fmt), [close], size);
    }
    assert t0 == RenderPieces(text, [head], size);
    assert after == RenderPieces(t0, AnnotationPieces(m, fmt), size);
    RenderPiecesAppend(text, [head], AnnotationPieces(m, fmt), size);
  }

  /**
   * The explicit terminator written when the line is full: the last call
   * already left it there, so the buffer does not change.
   */
  method Terminate(buffer: array<char>, ghost text: string)
    requires buffer.Length >= 1 && |text| >= buffer.Length - 1
    requires Holds(buffer[..], text)
    modifies buffer
    ensures buffer[..] == old(buffer[..])
  {
    buffer[buffer.Length - 1] := '\0';
  }

  /**
   * One pass of the loop over the table: monitor `i` is written after the
   * text so far; once the offset reaches `size - 1` the line is full, the
   * terminator is written and the loop stops with what it has, and otherwise
   * it goes on from there.
   */
  method EmitEntry(buffer: array<char>, offset: nat, ms: seq<Escalation.Monitor>, i: nat, fmt: int -> string,
                   ghost text: string) returns (next: nat, full: bool, ghost after: string)
    requires i < |ms| && buffer.Length >= 1 && |text| == offset && Holds(buffer[..], text)
    modifies buffer
    ensures next == |after| && Holds(buffer[..], after)
    ensures full <==> next >= buffer.Length - 1
    ensures full ==> RenderRuns(text, Runs(ms, fmt), i, buffer.Length) == (after, false)
    ensures !full ==> RenderRuns(text, Runs(ms, fmt), i, buffer.Length) == RenderRuns(after, Runs(ms, fmt), i + 1, buffer.Length)
  {
    next, after := EmitMonitor(buffer, offset, ms[i], i == 0, fmt, text);
    assert Runs(ms, fmt)[i] == MonitorPieces(ms[i], i == 0, fmt);
    full := next >= buffer.Length - 1;
    if full {
      Terminate(buffer, after);
    }
  }

  /**
   * The loop of `topic_stats_to_string` over the monitors `ms`, after `text`
   * is in the buffer: it stops with `false` after the first monitor that
   * reaches the end of the buffer, and ends with `true` otherwise.
   */
  method EmitRuns(buffer: array<char>, offset: nat, ms: seq<Escalation.Monitor>, fmt: int -> string,
                  ghost text: string) returns (ok: bool)
    requires buffer.Length >= 1 && |text| == offset && Holds(buffer[..], text)
    modifies buffer
    ensures ok == RenderRuns(text, Runs(ms, fmt), 0, buffer.Length).1
    ensures Holds(buffer[..], RenderRuns(text, Runs(ms, fmt), 0, buffer.Length).0)
  {
    ghost var runs := Runs(ms, fmt);
    ghost var done := text;
    var at := offset;
    var full := false;
    var i := 0;
    while i < |ms| && !full
      invariant i <= |ms| && at == |done| && Holds(buffer[..], done)
      invariant !full ==> RenderRuns(done, runs, i, buffer.Length) == RenderRuns(text, runs, 0, buffer.Length)
      invariant full ==> RenderRuns(text, runs, 0, buffer.Length) == (done, false)
    {
      at, full, done := EmitEntry(buffer, at, ms, i, fmt, done);
      i := i + 1;
    }
    ok := !full;
  }

  /**
   * `topic_stats_to_string` over the counters `l1`, `l2` and the monitors
   * `ms` in table order: it stops with `false` after the first monitor that
   * reaches the end of the buffer, and the buffer then holds the line cut to
   * `buffer.Length - 1` characters and its terminator.
   */
  method StatsToString(buffer: array<char>, l1: nat, l2: nat, ms: seq<Escalation.Monitor>, fmt: int -> string)
    returns (ok: bool)
    requires buffer.Length >= 1
    modifies buffer
    ensures ok == Render(l1, l2, ms, buffer.Length, fmt).1
    ensures Holds(buffer[..], Render(l1, l2, ms, buffer.Length, fmt).0)
  {
    var offset := Snprintf(buffer, 0, Header(l1, l2), "");
    assert "" + Header(l1, l2) == Header(l1, l2);
    ok := EmitRuns(buffer, offset, ms, fmt, Header(l1, l2));
  }

  // ---------------------------------------------------------------------------
  // Writes past the end of the buffer

  /**
   * Every call of a run starts at or before the end of the buffer, so that
   * `size - offset` (a `size_t`) does not wrap around to a huge room.
   */
  predicate PiecesInBounds(text: string, ps: seq<Piece>, size: nat)
    decreases |ps|
  {
    ps == [] || (PiecesInBounds(text, ps[..|ps| - 1], size) && |RenderPieces(text, ps[..|ps| - 1], size)| <= size)
  }

  /** The loop from monitor `i` on makes only calls that start within the buffer. */
  predicate RunsInBounds(text: string, runs: seq<seq<Piece>>, i: nat, size: nat)
    requires i <= |runs| && size >= 1
    decreases |runs| - i
  {
    i == |runs| ||
    (var t := RenderPieces(text, runs[i], size);
     PiecesInBounds(text, runs[i], size) && (|t| >= size - 1 || RunsInBounds(t, runs, i + 1, size)))
  }

  /** `topic_stats_to_string` as written never writes past the end of the buffer. */
  predicate StatsWithinBuffer(l1: nat, l2: nat, ms: seq<Escalation.Monitor>, size: nat, fmt: int -> string)
    requires size >= 1
  {
    RunsInBounds(Header(l1, l2), Runs(ms, fmt), 0, size)
  }

  /** In a run whose calls stay in bounds, the call at position `k` starts in bounds. */
  lemma {:induction false} InBoundsAt(text: string, ps: seq<Piece>, k: nat, size: nat)
    requires PiecesInBounds(text, ps, size) && k < |ps|
    ensures |RenderPieces(text, ps[..k], size)| <= size
    decreases |ps|
  {
    var init := ps[..|ps| - 1];
    if k < |init| {
      InBoundsAt(text, init, k, size);
      assert init[..k] == ps[..k];
    }
  }

  /** A run whose full text leaves room for the terminator never starts a call past the end. */
  lemma {:induction false} FittingPiecesInBounds(text: string, ps: seq<Piece>, size: nat)
    requires |text| + |PiecesText(ps)| < size
    ensures PiecesInBounds(text, ps, size)
    decreases |ps|
  {
    if ps != [] {
      var init := ps[..|ps| - 1];
      FittingPiecesInBounds(text, init, size);
      RenderPiecesFits(text, init, size);
    }
  }

  /** When the runs fit, no call of the loop writes past the end of the buffer. */
  lemma {:induction false} FittingRunsInBounds(text: string, runs: seq<seq<Piece>>, i: nat, size: nat)
    requires i <= |runs| && size >= 1
    requires |text| + |RunsText(runs, i)| < size - 1
    ensures RunsInBounds(text, runs, i, size)
    decreases |runs| - i
  {
    if i < |runs| {
      var run := PiecesText(runs[i]);
      FittingPiecesInBounds(text, runs[i], size);
      RenderPiecesFits(text, runs[i], size);
      FittingRunsInBounds(text + run, runs, i + 1, size);
    }
  }

  /** When the line fits, `topic_stats_to_string` as written stays within the buffer. */
  lemma StatsFitWithinBuffer(l1: nat, l2: nat, ms: seq<Escalation.Monitor>, size: nat, fmt: int -> string)
    requires size >= 1 && |FullText(l1, l2, ms, fmt)| < size - 1
    ensures StatsWithinBuffer(l1, l2, ms, size, fmt)
  {
    RunsSpellEntries(ms, 0, fmt);
    FittingRunsInBounds(Header(l1, l2), Runs(ms, fmt), 0, size);
  }

  /** `n` copies of `c`. */
  function Repeat(c: char, n: nat): (r: string)
    ensures |r| == n
  {
    if n == 0 then "" else Repeat(c, n - 1) + [c]
  }

  /**
   * A counterexample: with a 1024-byte buffer, a single monitor whose topic
   * is 1030 characters long and which has timed out once at level 1. The
   * topic call already takes the offset to 1042, past the end, so the next
   * call (` (`) is handed a room of `1024 - 1042`, which wraps around.
   */
  lemma LongTopicOverrunsBuffer(fmt: int -> string)
    ensures var m := Escalation.Monitor(Repeat('a', 1030), Wrappers.None, 60, 300, 0, true, false, 1, 0, 0, 0);
            !StatsWithinBuffer(0, 0, [m], 1024, fmt)
  {
    var m := Escalation.Monitor(Repeat('a', 1030), Wrappers.None, 60, 300, 0, true, false, 1, 0, 0, 0);
    var text := Header(0, 0);
    assert |text| == 12 by {
      assert Text.NatToDecimal(0) == "0";
    }
    var ps := MonitorPieces(m, true, fmt);
    assert Runs([m], fmt)[0] == ps;
    assert "" + m.topic == m.topic;
    assert ps[..1] == [Printed(m.topic)];
    assert [Printed(m.topic)][..0] == [];
    assert |RenderPieces(text, ps[..1], 1024)| == 1042;
    if PiecesInBounds(text, ps, 1024) {
      InBoundsAt(text, ps, 1, 1024);
    }
  }
}
