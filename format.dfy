/** `RecordFormatter`: one resource record as one line of output, its four
    fields (type, owner name, TTL, data) in that order and separated by
    single spaces, the type right-aligned to five characters and the TTL to
    twelve, and, when colour is on, the type and the name wrapped in
    foreground-colour escapes. */
module Format {
  import opened Options
  import opened Text
  import opened Records
  import opened Duration

  /** The palette index of the owner name, whatever the record type. */
  const NameColor: nat := 75

  /** Types that have an arm of their own in the colour table; the rest
      (CNAME, and any variant the table does not name) share the last arm. */
  predicate HasOwnColor(t: RecordType)
  {
    !(t.CNAME? || t.Other?)
  }

  /** `get_record_color`: the 256-colour palette index of a record type. */
  function RecordColor(t: RecordType): (c: nat)
    ensures c < 256 && c != NameColor
    ensures t.Unknown? ==> c == 35
    ensures HasOwnColor(t) <==> c != 37
  {
    match t
    case A => 1
    case AAAA => 2
    case ANAME => 3
    case ANY => 4
    case AXFR => 5
    case CAA => 6
    case CDS => 7
    case CDNSKEY => 8
    case CSYNC => 9
    case DNSKEY => 10
    case DS => 11
    case HINFO => 12
    case HTTPS => 13
    case IXFR => 14
    case KEY => 15
    case MX => 38
    case NAPTR => 17
    case NS => 18
    case NSEC => 19
    case NSEC3 => 20
    case NSEC3PARAM => 21
    case NULL => 22
    case OPENPGPKEY => 23
    case OPT => 24
    case PTR => 25
    case RRSIG => 26
    case SIG => 27
    case SOA => 28
    case SRV => 29
    case SSHFP => 30
    case SVCB => 31
    case TLSA => 32
    case TSIG => 33
    case TXT => 34
    case Unknown(_) => 35
    case ZERO => 36
    case _ => 37
  }

  /** The arm of the colour table a type falls into, as a representative
      type: every `Unknown` code is one arm, and so is everything the table
      does not name. */
  function Arm(t: RecordType): RecordType
  {
    if t.Unknown? then Unknown(0) else if HasOwnColor(t) then t else Other("")
  }

  /** Reading the colour table backwards: the arm that gives a palette index. */
  function ArmOfColor(c: nat): Option<RecordType>
  {
    if c == 1 then Some(A) else if c == 2 then Some(AAAA) else if c == 3 then Some(ANAME)
    else if c == 4 then Some(ANY) else if c == 5 then Some(AXFR) else if c == 6 then Some(CAA)
    else if c == 7 then Some(CDS) else if c == 8 then Some(CDNSKEY) else if c == 9 then Some(CSYNC)
    else if c == 10 then Some(DNSKEY) else if c == 11 then Some(DS) else if c == 12 then Some(HINFO)
    else if c == 13 then Some(HTTPS) else if c == 14 then Some(IXFR) else if c == 15 then Some(KEY)
    else if c == 38 then Some(MX) else if c == 17 then Some(NAPTR) else if c == 18 then Some(NS)
    else if c == 19 then Some(NSEC) else if c == 20 then Some(NSEC3) else if c == 21 then Some(NSEC3PARAM)
    else if c == 22 then Some(NULL) else if c == 23 then Some(OPENPGPKEY) else if c == 24 then Some(OPT)
    else if c == 25 then Some(PTR) else if c == 26 then Some(RRSIG) else if c == 27 then Some(SIG)
    else if c == 28 then Some(SOA) else if c == 29 then Some(SRV) else if c == 30 then Some(SSHFP)
    else if c == 31 then Some(SVCB) else if c == 32 then Some(TLSA) else if c == 33 then Some(TSIG)
    else if c == 34 then Some(TXT) else if c == 35 then Some(Unknown(0)) else if c == 36 then Some(ZERO)
    else if c == 37 then Some(Other(""))
    else None
  }

  /** The colour table and its reverse agree: the index of every type leads
      back to its arm, and every arm has the index of its members. */
  lemma ColorTableInverse(t: RecordType)
    ensures ArmOfColor(RecordColor(t)) == Some(Arm(t))
    ensures RecordColor(Arm(t)) == RecordColor(t)
  {
  }

  /** Two types share a colour exactly when the table puts them in the same
      arm: every listed type has an index of its own, all `Unknown` codes
      share 35, and all other types share 37. */
  lemma ColorIdentifiesArm(t: RecordType, u: RecordType)
    ensures RecordColor(t) == RecordColor(u) <==> Arm(t) == Arm(u)
  {
    ColorTableInverse(t);
    ColorTableInverse(u);
  }

  /** One piece of a formatted line: text, or the escape that sets the
      foreground to a palette index, or the one that resets it. */
  datatype Chunk = Chars(s: string) | Fg(index: nat) | FgReset

  /** `format_payload`: the record data's text, or nothing when it has none. */
  function Payload(r: Record): string
  {
    match r.data
    case None => ""
    case Some(text) => text
  }

  /** The colourless template: the type right-aligned to five characters,
      the name, the TTL right-aligned to twelve, and the data, joined by
      single spaces. */
  function Line(ty: string, name: string, ttl: string, data: string): string
  {
    PadLeft(ty, 5) + " " + name + " " + PadLeft(ttl, 12) + " " + data
  }

  /** The coloured template: the same fields, with the padded type in the
      colour `c` and the name in the name colour, each followed by a reset. */
  function ColouredLine(c: nat, ty: string, name: string, ttl: string, data: string): (r: seq<Chunk>)
    ensures Visible(r) == Line(ty, name, ttl, data)
  {
    VisibleOfColoured(c, PadLeft(ty, 5), name, " " + PadLeft(ttl, 12) + " " + data);
    [ Fg(c), Chars(PadLeft(ty, 5)), FgReset, Chars(" ")
    , Fg(NameColor), Chars(name), FgReset
    , Chars(" " + PadLeft(ttl, 12) + " " + data) ]
  }

  /** The record's line without colour. */
  function PlainLine(r: Record, cfg: OutputConfig): string
  {
    Line(Mnemonic(r.recordType), r.name, FormatDuration(r.ttl, cfg.formatSeconds), Payload(r))
  }

  /** `format`: the record's type, name, TTL and data put into the
      colourless template, or into the coloured one with the type's colour. */
  function FormatRecord(r: Record, cfg: OutputConfig): (line: seq<Chunk>)
    ensures |line| > 0
    ensures (forall k :: 0 <= k < |line| ==> line[k].Chars?) <==> !cfg.ansi
  {
    var ty, ttl, data := Mnemonic(r.recordType), FormatDuration(r.ttl, cfg.formatSeconds), Payload(r);
    if !cfg.ansi then [Chars(Line(ty, r.name, ttl, data))]
    else ColouredLine(RecordColor(r.recordType), ty, r.name, ttl, data)
  }

  /** A character on the terminal and the foreground colour it is shown
      in, `None` for the terminal's default. */
  datatype Cell = Cell(ch: char, fg: Option<nat>)

  function Cells(s: string, pen: Option<nat>): (cs: seq<Cell>)
    ensures |cs| == |s| && forall i :: 0 <= i < |s| ==> cs[i] == Cell(s[i], pen)
  {
    seq(|s|, i requires 0 <= i < |s| => Cell(s[i], pen))
  }

  /** What a terminal shows for a line, starting with the foreground `pen`. */
  function Paint(line: seq<Chunk>, pen: Option<nat>): seq<Cell>
    decreases |line|
  {
    if line == [] then []
    else
      match line[0]
      case Chars(s) => Cells(s, pen) + Paint(line[1..], pen)
      case Fg(c) => Paint(line[1..], Some(c))
      case FgReset => Paint(line[1..], None)
  }

  /** The foreground left set after a line. */
  function PenAfter(line: seq<Chunk>, pen: Option<nat>): Option<nat>
    decreases |line|
  {
    if line == [] then pen
    else
      match line[0]
      case Chars(_) => PenAfter(line[1..], pen)
      case Fg(c) => PenAfter(line[1..], Some(c))
      case FgReset => PenAfter(line[1..], None)
  }

  /** The text of a line with its escapes left out. */
  function Visible(line: seq<Chunk>): string
    decreases |line|
  {
    if line == [] then []
    else (if line[0].Chars? then line[0].s else []) + Visible(line[1..])
  }

  /** The text of the coloured template's chunks, escapes left out. */
  lemma VisibleOfColoured(c: nat, tf: string, name: string, rest: string)
    ensures Visible([Fg(c), Chars(tf), FgReset, Chars(" "), Fg(NameColor), Chars(name), FgReset, Chars(rest)])
      == tf + " " + name + rest
  {
    var line := [Fg(c), Chars(tf), FgReset, Chars(" "), Fg(NameColor), Chars(name), FgReset, Chars(rest)];
    assert line[8..] == [];
    assert Visible(line[7..]) == rest;
    assert Visible(line[6..]) == rest;
    assert Visible(line[5..]) == name + rest;
    assert Visible(line[4..]) == name + rest;
    assert Visible(line[3..]) == " " + name + rest;
    assert Visible(line[2..]) == " " + name + rest;
    assert Visible(line[1..]) == tf + (" " + name + rest);
  }

  /** Escapes change colours only: the terminal shows exactly the visible
      text, whatever the starting colour. */
  lemma {:induction false} PaintShowsVisible(line: seq<Chunk>, pen: Option<nat>)
    ensures |Paint(line, pen)| == |Visible(line)|
    ensures forall i :: 0 <= i < |Visible(line)| ==> Paint(line, pen)[i].ch == Visible(line)[i]
    decreases |line|
  {
    if line != [] {
      match line[0]
      case Chars(s) =>
        PaintShowsVisible(line[1..], pen);
        assert Paint(line, pen) == Cells(s, pen) + Paint(line[1..], pen);
        assert Visible(line) == s + Visible(line[1..]);
      case Fg(c) =>
        PaintShowsVisible(line[1..], Some(c));
      case FgReset =>
        PaintShowsVisible(line[1..], None);
    }
  }

  /** Painting a line in two parts: the second starts in the colour the
      first leaves set. */
  lemma {:induction false} PaintAppend(a: seq<Chunk>, b: seq<Chunk>, pen: Option<nat>)
    ensures Paint(a + b, pen) == Paint(a, pen) + Paint(b, PenAfter(a, pen))
    ensures PenAfter(a + b, pen) == PenAfter(b, PenAfter(a, pen))
    decreases |a|
  {
    if a == [] {
      assert a + b == b;
    } else {
      assert (a + b)[1..] == a[1..] + b;
      var pen' := match a[0] case Fg(c) => Some(c) case FgReset => None case Chars(_) => pen;
      PaintAppend(a[1..], b, pen');
    }
  }


  /** The colour the coloured template shows position `i` in, for a type
      field `w` wide, a name `n` long and the type colour `c`. */
  function ColourAt(i: nat, w: nat, n: nat, c: nat): Option<nat>
  {
    if i < w then Some(c) else if w < i <= w + n then Some(NameColor) else None
  }

  /** Two strings joined by a space. */
  lemma SpaceJoin(a: string, b: string)
    ensures var l := a + " " + b;
      && |l| == |a| + 1 + |b| && l[..|a|] == a && l[|a|] == ' ' && l[|a| + 1..] == b
  {
    var l := a + " " + b;
    assert l[..|a|] == a;
    assert l[|a| + 1..] == b;
  }

  /** Where the first two fields sit in the colourless template: the type
      right-aligned in the first `max(5, |ty|)` columns, one space, the
      name, one space. */
  lemma LineHead(ty: string, name: string, ttl: string, data: string)
    ensures var line := Line(ty, name, ttl, data);
      var w := Max(5, |ty|); var n := w + 1 + |name|;
      && |line| == n + 1 + Max(12, |ttl|) + 1 + |data|
      && (forall i :: 0 <= i < w - |ty| ==> line[i] == ' ')
      && line[w - |ty|..w] == ty
      && line[w] == ' '
      && line[w + 1..n] == name
      && line[n] == ' '
  {
    Aligned(PadLeft(ty, 5), ty, 5, name, PadLeft(ttl, 12), ttl, 12, data);
  }

  /** Where the last two fields sit: after the name and its space, the TTL
      right-aligned in `max(12, |ttl|)` columns, one space, the data up to
      the end of the line. */
  lemma LineTail(ty: string, name: string, ttl: string, data: string)
    ensures var line := Line(ty, name, ttl, data);
      var n := Max(5, |ty|) + 1 + |name|; var z := n + 1 + Max(12, |ttl|);
      && z < |line|
      && (forall i :: n < i < z - |ttl| ==> line[i] == ' ')
      && line[z - |ttl|..z] == ttl
      && line[z] == ' '
      && line[z + 1..] == data
  {
    Aligned(PadLeft(ty, 5), ty, 5, name, PadLeft(ttl, 12), ttl, 12, data);
  }

  /** The same, for any fields `tf` and `tt` that right-align `ty` and `ttl`
      in `wt` and `wl` columns. */
  lemma Aligned(tf: string, ty: string, wt: nat, name: string, tt: string, ttl: string, wl: nat, data: string)
    requires |tf| == Max(wt, |ty|) && tf[|tf| - |ty|..] == ty
    requires forall i :: 0 <= i < |tf| - |ty| ==> tf[i] == ' '
    requires |tt| == Max(wl, |ttl|) && tt[|tt| - |ttl|..] == ttl
    requires forall i :: 0 <= i < |tt| - |ttl| ==> tt[i] == ' '
    ensures var line := tf + " " + name + " " + tt + " " + data;
      var w := Max(wt, |ty|); var n := w + 1 + |name|; var z := n + 1 + Max(wl, |ttl|);
      && |line| == z + 1 + |data|
      && (forall i :: 0 <= i < w - |ty| ==> line[i] == ' ')
      && line[w - |ty|..w] == ty
      && line[w] == ' '
      && line[w + 1..n] == name
      && line[n] == ' '
      && (forall i :: n < i < z - |ttl| ==> line[i] == ' ')
      && line[z - |ttl|..z] == ttl
      && line[z] == ' '
      && line[z + 1..] == data
  {
    Joined(tf, name, tt, data);
    var line := tf + " " + name + " " + tt + " " + data;
    var w, n := |tf|, |tf| + 1 + |name|;
    var z := n + 1 + |tt|;
    assert line[w - |ty|..w] == ty by { assert line[w - |ty|..w] == tf[w - |ty|..]; }
    assert line[z - |ttl|..z] == ttl by { assert line[z - |ttl|..z] == tt[|tt| - |ttl|..]; }
    forall i | 0 <= i < w - |ty| ensures line[i] == ' ' {
      assert line[i] == line[..w][i];
    }
    forall i | n < i < z - |ttl| ensures line[i] == ' ' {
      assert line[i] == line[n + 1..z][i - n - 1];
    }
  }

  /** Four strings joined by single spaces. */
  lemma Joined(a: string, b: string, c: string, d: string)
    ensures var line := a + " " + b + " " + c + " " + d;
      var n := |a| + 1 + |b|; var z := n + 1 + |c|;
      && |line| == z + 1 + |d|
      && line[..|a|] == a && line[|a|] == ' ' && line[|a| + 1..n] == b && line[n] == ' '
      && line[n + 1..z] == c && line[z] == ' ' && line[z + 1..] == d
  {
    var p2 := a + " " + b;
    var p4 := p2 + " " + c;
    var line := p4 + " " + d;
    var w, n, z := |a|, |p2|, |p4|;
    SpaceJoin(p4, d);
    SpaceJoin(p2, c);
    SpaceJoin(a, b);
    assert line[..n] == p2 by { assert line[..n] == p4[..n]; }
    assert line[..w] == a by { assert line[..w] == p2[..w]; }
    assert line[w + 1..n] == b by { assert line[w + 1..n] == p2[w + 1..]; }
    assert line[n + 1..z] == c by { assert line[n + 1..z] == p4[n + 1..]; }
  }

  /** The escapes around the type field. */
  lemma PaintHead(c: nat, tf: string)
    ensures var head := [Fg(c), Chars(tf), FgReset, Chars(" ")];
      Paint(head, None) == Cells(tf, Some(c)) + Cells(" ", None) && PenAfter(head, None) == None
  {
    var h0 := [Fg(c), Chars(tf), FgReset, Chars(" ")];
    var h1 := [Chars(tf), FgReset, Chars(" ")];
    var h2 := [FgReset, Chars(" ")];
    var h3 := [Chars(" ")];
    assert h0[1..] == h1 && h1[1..] == h2 && h2[1..] == h3 && h3[1..] == [];
    assert Paint(h3, None) == Cells(" ", None) + [] && PenAfter(h3, None) == None;
    assert Paint(h2, Some(c)) == Paint(h3, None) && PenAfter(h2, Some(c)) == None;
    assert Paint(h1, Some(c)) == Cells(tf, Some(c)) + Paint(h2, Some(c));
    assert PenAfter(h1, Some(c)) == None;
  }

  /** The escapes around the name. */
  lemma PaintName(name: string)
    ensures var ns := [Fg(NameColor), Chars(name), FgReset];
      Paint(ns, None) == Cells(name, Some(NameColor)) && PenAfter(ns, None) == None
  {
    var n0 := [Fg(NameColor), Chars(name), FgReset];
    var n1 := [Chars(name), FgReset];
    var n2 := [FgReset];
    assert n0[1..] == n1 && n1[1..] == n2 && n2[1..] == [];
    assert Paint(n2, Some(NameColor)) == [] && PenAfter(n2, Some(NameColor)) == None;
    assert Paint(n1, Some(NameColor)) == Cells(name, Some(NameColor)) + [];
    assert PenAfter(n1, Some(NameColor)) == None;
  }

  /** The cells of the three painted parts, laid end to end. */
  lemma Painted(tf: string, name: string, rest: string, c: nat)
    ensures var cells := Cells(tf, Some(c)) + Cells(" ", None) + (Cells(name, Some(NameColor)) + (Cells(rest, None) + []));
      var line := tf + " " + name + rest;
      && |cells| == |line|
      && (forall i :: 0 <= i < |cells| ==> cells[i] == Cell(line[i], ColourAt(i, |tf|, |name|, c)))
  {
    var cells := Cells(tf, Some(c)) + Cells(" ", None) + (Cells(name, Some(NameColor)) + (Cells(rest, None) + []));
    var line := tf + " " + name + rest;
    var w := |tf|;
    forall i | 0 <= i < |cells|
      ensures cells[i] == Cell(line[i], ColourAt(i, w, |name|, c))
    {
      if i < w {
        assert cells[i] == Cell(tf[i], Some(c)) && line[i] == tf[i];
      } else if i == w {
        assert cells[i] == Cell(' ', None) && line[i] == ' ';
      } else if i <= w + |name| {
        assert cells[i] == Cell(name[i - w - 1], Some(NameColor)) && line[i] == name[i - w - 1];
      } else {
        assert cells[i] == Cell(rest[i - w - 1 - |name|], None) && line[i] == rest[i - w - 1 - |name|];
      }
    }
  }

  /** What the coloured template shows: the characters of the colourless
      one, the padded type field in the type colour, the name in the name
      colour, everything else in the default colour, which it leaves set. */
  lemma ColouredPaint(c: nat, ty: string, name: string, ttl: string, data: string)
    ensures var cells := Paint(ColouredLine(c, ty, name, ttl, data), None);
      var line := Line(ty, name, ttl, data);
      && |cells| == |line|
      && (forall i :: 0 <= i < |cells| ==> cells[i] == Cell(line[i], ColourAt(i, Max(5, |ty|), |name|, c)))
      && PenAfter(ColouredLine(c, ty, name, ttl, data), None) == None
  {
    var tf, rest := PadLeft(ty, 5), " " + PadLeft(ttl, 12) + " " + data;
    var head := [Fg(c), Chars(tf), FgReset, Chars(" ")];
    var ns := [Fg(NameColor), Chars(name), FgReset];
    var tail := [Chars(rest)];
    assert ColouredLine(c, ty, name, ttl, data) == head + (ns + tail);
    PaintAppend(head, ns + tail, None);
    PaintAppend(ns, tail, None);
    PaintHead(c, tf);
    PaintName(name);
    assert tail[1..] == [];
    assert Paint(tail, None) == Cells(rest, None) + [];
    assert Line(ty, name, ttl, data) == tf + " " + name + rest;
    Painted(tf, name, rest, c);
  }

  /** With colour off, the line carries no escape, and it is the plain
      line in the default colour. */
  lemma PlainHasNoColour(r: Record, cfg: OutputConfig)
    requires !cfg.ansi
    ensures forall k :: 0 <= k < |FormatRecord(r, cfg)| ==> FormatRecord(r, cfg)[k].Chars?
    ensures Paint(FormatRecord(r, cfg), None) == Cells(PlainLine(r, cfg), None)
  {
    var line := FormatRecord(r, cfg);
    assert line[1..] == [];
  }

  /** With colour on, the type field, from its first padding space to its
      last letter, is in the type's colour; the name is in the name colour;
      the separators, the TTL and the data are in the default colour; the
      characters shown are those of the plain line; and the line leaves
      the default colour set. */
  lemma AnsiColouring(r: Record, cfg: OutputConfig)
    requires cfg.ansi
    ensures var cells := Paint(FormatRecord(r, cfg), None);
      var line := PlainLine(r, cfg); var w := Max(5, |Mnemonic(r.recordType)|);
      && |cells| == |line|
      && (forall i :: 0 <= i < |cells| ==> cells[i].ch == line[i])
      && (forall i :: 0 <= i < |cells| ==> cells[i].fg == ColourAt(i, w, |r.name|, RecordColor(r.recordType)))
      && PenAfter(FormatRecord(r, cfg), None) == None
  {
    ColouredPaint(RecordColor(r.recordType), Mnemonic(r.recordType), r.name,
      FormatDuration(r.ttl, cfg.formatSeconds), Payload(r));
  }

  /** Colour changes nothing but colour: both ways the visible text is
      the plain line. */
  lemma VisibleIgnoresAnsi(r: Record, cfg: OutputConfig)
    ensures Visible(FormatRecord(r, cfg)) == PlainLine(r, cfg)
  {
    var line := FormatRecord(r, cfg);
    if !cfg.ansi {
      assert line[1..] == [];
    }
  }

  /** The data field of a record's plain line is the text of its data,
      or nothing when it has none. */
  lemma PlainLineData(r: Record, cfg: OutputConfig)
    ensures var line := PlainLine(r, cfg);
      var n := Max(5, |Mnemonic(r.recordType)|) + 1 + |r.name|;
      var z := n + 1 + Max(12, |FormatDuration(r.ttl, cfg.formatSeconds)|);
      && z < |line|
      && (r.data.None? ==> line[z + 1..] == [])
      && (r.data.Some? ==> line[z + 1..] == r.data.value)
  {
    LineTail(Mnemonic(r.recordType), r.name, FormatDuration(r.ttl, cfg.formatSeconds), Payload(r));
  }

  /** The TTL column is exactly twelve characters wide for bare seconds and
      for compact durations under a hundred days. */
  lemma TtlColumnWidth(r: Record, cfg: OutputConfig)
    requires !cfg.formatSeconds || r.ttl as nat < 100 * 86400
    ensures |PadLeft(FormatDuration(r.ttl, cfg.formatSeconds), 12)| == 12
  {
    if cfg.formatSeconds {
      CompactWidth(r.ttl);
    } else {
      RawSeconds(r.ttl);
    }
  }

  /** An A record for `example.com.` with a five-minute TTL, printed
      without colour and with compact durations: eight spaces separate the
      name from the TTL, one plus the seven that pad `5m00s` to twelve. */
  lemma ExampleLine()
    ensures FormatRecord(Record(A, "example.com.", 300, Some("93.184.216.34")), OutputConfig(true, false))
      == [Chars("    A example.com.        5m00s 93.184.216.34")]
  {
    ExampleMinutes();
    ExampleText();
  }

  lemma ExampleText()
    ensures Line("A", "example.com.", "5m00s", "93.184.216.34")
      == "    A example.com.        5m00s 93.184.216.34"
  {
    assert Line("A", "example.com.", "5m00s", "93.184.216.34")
      == PadLeft("A", 5) + " " + "example.com." + " " + PadLeft("5m00s", 12) + " " + "93.184.216.34";
    assert Repeat(' ', 4) == "    ";
    assert Repeat(' ', 7) == "       ";
    assert PadLeft("A", 5) == "    A";
    assert PadLeft("5m00s", 12) == "       5m00s";
    assert "    A" + " " + "example.com." == "    A example.com.";
    assert "    A example.com." + " " + "       5m00s" == "    A example.com.        5m00s";
    assert "    A example.com.        5m00s" + " " + "93.184.216.34"
      == "    A example.com.        5m00s 93.184.216.34";
  }
}
