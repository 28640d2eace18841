/**
 * Transcript archival at ticket closure (create_transcript). The channel
 * history arrives newest first; it is reversed to oldest first, each message
 * is rendered as a block (a header line followed by one line per
 * attachment), and the blocks are gathered into chunks: a block goes into a
 * new chunk when the current chunk's length plus the block's length exceeds
 * 4000. Every block is appended together with one extra "\n", which the
 * size test does not count.
 */
module Transcript {
  import opened Strings
  import opened Platform

  const ChunkLimit := 4000

  // ---------------------------------------------------------------------
  // Rendering
  // ---------------------------------------------------------------------

  /** Decimal rendering left-padded with zeros to `width` characters. */
  function Pad(n: int, width: nat): (s: string)
    ensures |s| >= width
  {
    var d := IntToDecimal(n);
    if |d| >= width then d else seq(width - |d|, _ => '0') + d
  }

  /** A calendar date: year, month 1..12 and day of the month. */
  datatype Date = Date(year: int, month: int, day: int)

  /**
   * The proleptic Gregorian date of a day number counted from 1970-01-01:
   * eras of 400 years (146097 days) whose years start on March 1.
   */
  function CivilFromDays(days: int): (d: Date)
    ensures 1 <= d.month <= 12 && 1 <= d.day <= 31
  {
    var z := days + 719468;
    var era := z / 146097;
    var doe := z - era * 146097;
    var yoe := (doe - doe / 1460 + doe / 36524 - doe / 146096) / 365;
    var doy := doe - (365 * yoe + yoe / 4 - yoe / 100);
    DayOfYearBounds(doe);
    var mp := (5 * doy + 2) / 153;
    var day := doy - (153 * mp + 2) / 5 + 1;
    var month := if mp < 10 then mp + 3 else mp - 9;
    var year := yoe + era * 400 + (if month <= 2 then 1 else 0);
    Date(year, month, day)
  }

  /**
   * Within an era, the year estimate lands on the year holding the day: the
   * day of that (March-based) year is 0..365. A day of the era is
   * 36524c + 1461k + 365m + j (century c, four-year block k, year m, day j),
   * and the estimate's correction terms cancel to year 100c + 4k + m.
   */
  lemma DayOfYearBounds(doe: int)
    requires 0 <= doe < 146097
    ensures var yoe := (doe - doe / 1460 + doe / 36524 - doe / 146096) / 365;
      var doy := doe - (365 * yoe + yoe / 4 - yoe / 100);
      0 <= doy <= 365
  {
    var c := if doe / 36524 > 3 then 3 else doe / 36524;
    var r := doe - 36524 * c;
    var k := r / 1461;
    var s := r - 1461 * k;
    var m := if s / 365 > 3 then 3 else s / 365;
    var j := s - 365 * m;
    assert 0 <= c <= 3 && 0 <= k <= 24 && 0 <= m <= 3 && 0 <= j <= 365;
    assert j == 365 ==> m == 3;
    assert doe == 36524 * c + 1461 * k + 365 * m + j;
    var delta := if 24 * c + k + 365 * m + j >= 1460 then 1 else 0;
    assert doe / 1460 == 25 * c + k + delta;
    assert doe / 36524 - doe / 146096 == c;
    var y := 100 * c + 4 * k + m;
    assert doe - doe / 1460 + doe / 36524 - doe / 146096 == 365 * y + j - delta;
    assert 0 <= j - delta <= 364;
    var yoe := (doe - doe / 1460 + doe / 36524 - doe / 146096) / 365;
    assert yoe == y;
    assert yoe / 4 == 25 * c + k;
    assert yoe / 100 == c;
  }

  /** A timestamp in whole seconds rendered as "%Y-%m-%d %H:%M:%S" in UTC. */
  function FormatUtc(t: int): string
  {
    var d := CivilFromDays(t / 86400);
    var secs := t % 86400;
    Pad(d.year, 4) + "-" + Pad(d.month, 2) + "-" + Pad(d.day, 2) + " "
      + Pad(secs / 3600, 2) + ":" + Pad(secs % 3600 / 60, 2) + ":" + Pad(secs % 60, 2)
  }

  /** A field below 10^width fills exactly `width` characters. */
  lemma PadWidth(n: int, width: nat)
    requires 1 <= width && 0 <= n < Pow10(width)
    ensures |Pad(n, width)| == width
  {
    NatToDecimalLength(n, width);
  }

  /**
   * Every timestamp of the years 0..9999 renders in exactly 19 characters, so
   * a header's length, which the chunking test counts, does not depend on
   * the time it shows.
   */
  lemma FormatUtcLength(t: int)
    requires 0 <= CivilFromDays(t / 86400).year <= 9999
    ensures |FormatUtc(t)| == 19
  {
    var d := CivilFromDays(t / 86400);
    var secs := t % 86400;
    assert Pow10(2) == 100 && Pow10(4) == 10000 by {
      assert Pow10(1) == 10;
      assert Pow10(3) == 1000;
    }
    PadWidth(d.year, 4);
    PadWidth(d.month, 2);
    PadWidth(d.day, 2);
    PadWidth(secs / 3600, 2);
    PadWidth(secs % 3600 / 60, 2);
    PadWidth(secs % 60, 2);
  }

  /** The header line of a message: "[time] name (id): content" and a newline. */
  function Header(m: Message): (s: string)
    ensures |s| > 0 && s[0] == '[' && s[|s| - 1] == '\n'
  {
    "[" + FormatUtc(m.createdAt) + "] " + m.author.displayName
      + " (" + IntToDecimal(m.author.id) + "): " + m.content + "\n"
  }

  function AttachmentLine(a: Attachment): string
  {
    "\U{1F4CE} ATTACHMENT: " + a.url + "\n"
  }

  function AttachmentLines(atts: seq<Attachment>): string
  {
    if atts == [] then "" else AttachmentLines(atts[..|atts| - 1]) + AttachmentLine(atts[|atts| - 1])
  }

  /** The block of one message: its header line, then one line per attachment, in order. */
  function Block(m: Message): (b: string)
    ensures Header(m) <= b
    ensures |b| > 0 && b[|b| - 1] == '\n'
  {
    var h := Header(m);
    var b := h + AttachmentLines(m.attachments);
    assert b[..|h|] == h;
    b
  }

  function Blocks(ms: seq<Message>): (bs: seq<string>)
    ensures |bs| == |ms|
  {
    seq(|ms|, i requires 0 <= i < |ms| => Block(ms[i]))
  }

  /** The history in the opposite order: oldest first when given newest first. */
  function Reversed<T>(s: seq<T>): (r: seq<T>)
    ensures |r| == |s|
    ensures forall i :: 0 <= i < |s| ==> r[i] == s[|s| - 1 - i]
  {
    if s == [] then [] else [s[|s| - 1]] + Reversed(s[..|s| - 1])
  }

  // ---------------------------------------------------------------------
  // Specification of the chunking
  // ---------------------------------------------------------------------

  /** What the buffer receives for one block: the block and one extra newline. */
  function Entry(b: string): string
  {
    b + "\n"
  }

  /** The text of a run of blocks, as the buffer holds it. */
  function Join(bs: seq<string>): (r: string)
    ensures |r| >= |bs|
  {
    if bs == [] then "" else Join(bs[..|bs| - 1]) + Entry(bs[|bs| - 1])
  }

  /** The state of the loop: the groups of blocks already flushed and the group being built. */
  datatype Acc = Acc(closed: seq<seq<string>>, open: seq<string>)

  /** One iteration: flush first when the block does not fit, then add it. */
  function Step(a: Acc, b: string): Acc
  {
    if |Join(a.open)| + |b| > ChunkLimit then Acc(a.closed + [a.open], [b])
    else Acc(a.closed, a.open + [b])
  }

  function Run(bs: seq<string>): Acc
  {
    if bs == [] then Acc([], []) else Step(Run(bs[..|bs| - 1]), bs[|bs| - 1])
  }

  /** The blocks of each chunk, in chunk order; the final group is flushed when it is not empty. */
  function Grouping(bs: seq<string>): seq<seq<string>>
  {
    var a := Run(bs);
    if a.open == [] then a.closed else a.closed + [a.open]
  }

  function JoinAll(gs: seq<seq<string>>): (cs: seq<string>)
    ensures |cs| == |gs|
  {
    seq(|gs|, k requires 0 <= k < |gs| => Join(gs[k]))
  }

  /** The chunks create_transcript returns for the given blocks. */
  function Chunks(bs: seq<string>): seq<string>
  {
    JoinAll(Grouping(bs))
  }

  function Flatten(gs: seq<seq<string>>): seq<string>
  {
    if gs == [] then [] else Flatten(gs[..|gs| - 1]) + gs[|gs| - 1]
  }

  function Concat(cs: seq<string>): string
  {
    if cs == [] then "" else Concat(cs[..|cs| - 1]) + cs[|cs| - 1]
  }

  lemma JoinSnoc(g: seq<string>, b: string)
    ensures Join(g + [b]) == Join(g) + Entry(b)
  {
    assert (g + [b])[..|g|] == g;
  }

  lemma JoinAllSnoc(gs: seq<seq<string>>, g: seq<string>)
    ensures JoinAll(gs + [g]) == JoinAll(gs) + [Join(g)]
  {
  }

  lemma RunSnoc(bs: seq<string>, i: nat)
    requires i < |bs|
    ensures Run(bs[..i + 1]) == Step(Run(bs[..i]), bs[i])
  {
    assert bs[..i + 1][..i] == bs[..i];
  }

  /** The loop's variables hold the text of the specification's state. */
  ghost predicate Mirrors(a: Acc, chunks: seq<string>, current: string)
  {
    chunks == JoinAll(a.closed) && current == Join(a.open)
  }

  lemma MirrorStep(a: Acc, chunks: seq<string>, current: string, b: string)
    requires Mirrors(a, chunks, current)
    ensures |current| + |b| > ChunkLimit ==> Mirrors(Step(a, b), chunks + [current], b + "\n")
    ensures |current| + |b| <= ChunkLimit ==> Mirrors(Step(a, b), chunks, current + b + "\n")
  {
    JoinAllSnoc(a.closed, a.open);
    JoinSnoc(a.open, b);
    JoinSnoc([], b);
  }

  // ---------------------------------------------------------------------
  // The loop of create_transcript
  // ---------------------------------------------------------------------

  /**
   * Reverses the newest-first history and chunks its blocks with a running
   * buffer; returns the chunks and the oldest-first messages.
   */
  method CreateTranscript(history: seq<Message>) returns (chunks: seq<string>, messages: seq<Message>)
    ensures messages == Reversed(history)
    ensures chunks == Chunks(Blocks(messages))
  {
    messages := Reversed(history);
    ghost var bs := Blocks(messages);
    chunks := [];
    var current := "";
    for i := 0 to |messages|
      invariant Mirrors(Run(bs[..i]), chunks, current)
    {
      var line := Block(messages[i]);
      RunSnoc(bs, i);
      MirrorStep(Run(bs[..i]), chunks, current, line);
      if |current| + |line| > ChunkLimit {
        // flush, and the emptied buffer receives the block
        chunks := chunks + [current];
        current := line + "\n";
      } else {
        current := current + line + "\n";
      }
    }
    assert bs[..|messages|] == bs;
    if current != "" {
      JoinAllSnoc(Run(bs).closed, Run(bs).open);
      chunks := chunks + [current];
    }
  }
}
