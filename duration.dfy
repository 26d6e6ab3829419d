/** The TTL column: `format_duration` prints a record's time to live either
    as a bare count of seconds or as a compact duration such as `1h01m01s`,
    splitting greedily into days, hours, minutes and seconds. */
module Duration {
  import opened Options
  import opened Text
  import opened Records

  /** A duration as whole days, hours, minutes and seconds. */
  datatype Parts = Parts(days: nat, hours: nat, minutes: nat, seconds: nat)

  predicate Normal(p: Parts) { p.hours < 24 && p.minutes < 60 && p.seconds < 60 }

  function Total(p: Parts): nat { 86400 * p.days + 3600 * p.hours + 60 * p.minutes + p.seconds }

  /** The components the day-scale branch prints, computed as it computes
      them; they are the unique normal decomposition of `t`. */
  function Split(t: nat): (p: Parts)
    ensures Normal(p) && Total(p) == t
  {
    var p := Parts(t / 86400, (t % 86400) / 3600, (t % 3600) / 60, t % 60);
    SplitSum(t);
    p
  }

  lemma SplitSum(t: nat)
    ensures (t % 86400) / 3600 < 24 && (t % 3600) / 60 < 60
    ensures 86400 * (t / 86400) + 3600 * ((t % 86400) / 3600) + 60 * ((t % 3600) / 60) + t % 60 == t
  {
    var d, r1 := t / 86400, t % 86400;
    var h, r2 := r1 / 3600, r1 % 3600;
    assert t == 86400 * d + 3600 * h + r2;
    assert t == 3600 * (24 * d + h) + r2;
    DivMod(t, 3600, 24 * d + h, r2);
    var m, s := r2 / 60, r2 % 60;
    assert t == 60 * (60 * (24 * d + h) + m) + s;
    DivMod(t, 60, 60 * (24 * d + h) + m, s);
  }

  /** Quotient and remainder by one of the unit lengths are unique. */
  lemma DivMod(t: nat, k: nat, q: nat, r: nat)
    requires k == 60 || k == 3600 || k == 86400
    requires 0 <= r < k && t == k * q + r
    ensures t / k == q && t % k == r
  {
    if k == 60 {
      assert t == 60 * q + r;
    } else if k == 3600 {
      assert t == 3600 * q + r;
    } else {
      assert t == 86400 * q + r;
    }
  }

  /** A normal decomposition is unique: `Split` is the only one. */
  lemma SplitUnique(t: nat, p: Parts)
    requires Normal(p) && Total(p) == t
    ensures p == Split(t)
  {
    var r2 := p.minutes * 60 + p.seconds;
    assert r2 < 3600;
    assert t == 3600 * (24 * p.days + p.hours) + r2;
    DivMod(t, 3600, 24 * p.days + p.hours, r2);
    var r1 := p.hours * 3600 + r2;
    assert t == 86400 * p.days + r1;
    DivMod(t, 86400, p.days, r1);
    DivMod(r1, 3600, p.hours, r2);
    DivMod(r2, 60, p.minutes, p.seconds);
    assert t == 60 * (60 * (24 * p.days + p.hours) + p.minutes) + p.seconds;
    DivMod(t, 60, 60 * (24 * p.days + p.hours) + p.minutes, p.seconds);
  }

  /** `format_duration` on a TTL, for the configured `format_seconds`. */
  function FormatDuration(seconds: u32, formatSeconds: bool): (r: string)
    ensures |r| > 0
    ensures !formatSeconds <==> AllDigits(r)
  {
    var t := seconds as nat;
    if !formatSeconds then Decimal(t)
    else
      var r :=
        if t < 60 then
          Decimal(t) + "s"
        else if t < 60 * 60 then
          Decimal(t / 60) + "m" + Pad2(t % 60) + "s"
        else if t < 60 * 60 * 24 then
          Decimal(t / 3600) + "h" + Pad2((t % 3600) / 60) + "m" + Pad2(t % 60) + "s"
        else
          Decimal(t / 86400) + "d" + Decimal((t % 86400) / 3600) + "h"
          + Pad2((t % 3600) / 60) + "m" + Pad2(t % 60) + "s";
      assert r[|r| - 1] == 's';
      r
  }

  /** Without `format_seconds` the column is exactly the decimal TTL: digits
      only, no unit, no leading zero, and at most ten of them. */
  lemma RawSeconds(seconds: u32)
    ensures var r := FormatDuration(seconds, false);
      AllDigits(r) && Value(r) == seconds as nat && (r[0] == '0' ==> r == "0") && |r| <= 10
  {
    ValueOfDecimal(seconds as nat);
    assert Pow10(10) == 10000000000;
    DecimalLength(seconds as nat, 10);
  }

  /** One number of a compact duration, as written and as read, and the
      unit letter after it. */
  datatype Group = Group(digits: string, unit: char, value: nat)

  predicate WellFormed(g: Group)
  {
    g.digits != [] && AllDigits(g.digits) && !IsDigit(g.unit) && g.value == Value(g.digits)
  }

  predicate AllWellFormed(gs: seq<Group>) { forall i :: 0 <= i < |gs| ==> WellFormed(gs[i]) }

  /** Writes the groups from the `i`-th on one after another. */
  function RenderFrom(gs: seq<Group>, i: nat): string
    requires i <= |gs|
    decreases |gs| - i
  {
    if i == |gs| then [] else gs[i].digits + [gs[i].unit] + RenderFrom(gs, i + 1)
  }

  function Render(gs: seq<Group>): string { RenderFrom(gs, 0) }

  /** Reads a string as numbers each followed by one unit letter. */
  function Groups(s: string): (r: Option<seq<Group>>)
    ensures r.Some? ==> AllWellFormed(r.value)
    decreases |s|
  {
    if s == [] then Some([])
    else
      var k := SpanDigits(s);
      if k == 0 || k == |s| then None
      else
        match Groups(s[k + 1..])
        case None => None
        case Some(gs) => Some([Group(s[..k], s[k], Value(s[..k]))] + gs)
  }

  /** The seconds that `v` of `unit` stand for, if `unit` is a unit letter. */
  function Scale(unit: char, v: nat): Option<nat>
  {
    match unit
    case 'd' => Some(86400 * v)
    case 'h' => Some(3600 * v)
    case 'm' => Some(60 * v)
    case 's' => Some(v)
    case _ => None
  }

  /** The seconds the groups from the `i`-th on add up to. */
  function SumFrom(gs: seq<Group>, i: nat): Option<nat>
    requires i <= |gs|
    decreases |gs| - i
  {
    if i == |gs| then Some(0)
    else
      var x, rest := Scale(gs[i].unit, gs[i].value), SumFrom(gs, i + 1);
      if x.None? || rest.None? then None else Some(x.value + rest.value)
  }

  function Sum(gs: seq<Group>): Option<nat> { SumFrom(gs, 0) }

  /** The number of seconds a compact duration denotes. */
  function ParseDuration(s: string): Option<nat>
  {
    match Groups(s)
    case None => None
    case Some(gs) => Sum(gs)
  }

  function Units(gs: seq<Group>): string
  {
    seq(|gs|, i requires 0 <= i < |gs| => gs[i].unit)
  }

  function Values(gs: seq<Group>): seq<nat>
  {
    seq(|gs|, i requires 0 <= i < |gs| => gs[i].value)
  }

  /** Reading back what `Render` wrote gives the same groups. */
  lemma GroupsOfRender(gs: seq<Group>)
    requires AllWellFormed(gs)
    ensures Groups(Render(gs)) == Some(gs)
  {
    GroupsOfRenderFrom(gs, 0);
  }

  lemma {:induction false} GroupsOfRenderFrom(gs: seq<Group>, i: nat)
    requires AllWellFormed(gs) && i <= |gs|
    ensures Groups(RenderFrom(gs, i)) == Some(gs[i..])
    decreases |gs| - i
  {
    if i < |gs| {
      var g := gs[i];
      assert gs[i..] == [g] + gs[i + 1..];
      assert Groups(RenderFrom(gs, i)) == Some([g] + gs[i + 1..]) by {
        assert WellFormed(g);
        GroupsOfRenderFrom(gs, i + 1);
        ReadOneGroup(g.digits, g.unit, RenderFrom(gs, i + 1));
      }
    }
  }

  /** Writing the groups after a first one is writing them on their own. */
  lemma {:induction false} RenderFromCons(g: Group, gs: seq<Group>, i: nat)
    requires i <= |gs|
    ensures RenderFrom([g] + gs, i + 1) == RenderFrom(gs, i)
    decreases |gs| - i
  {
    if i < |gs| {
      assert ([g] + gs)[i + 1] == gs[i];
      RenderFromCons(g, gs, i + 1);
    }
  }

  /** `Groups` accepts nothing but what `Render` writes: a string it reads
      is the rendering of the groups it reads. */
  lemma {:induction false} RenderOfGroups(s: string)
    ensures Groups(s).Some? ==> Render(Groups(s).value) == s
    decreases |s|
  {
    if s != [] && Groups(s).Some? {
      var k := SpanDigits(s);
      var gs := Groups(s[k + 1..]).value;
      var g := Group(s[..k], s[k], Value(s[..k]));
      assert Groups(s).value == [g] + gs;
      assert Render(gs) == s[k + 1..] by { RenderOfGroups(s[k + 1..]); }
      assert Render([g] + gs) == s[..k] + [s[k]] + Render(gs) by { RenderFromCons(g, gs, 0); }
      assert s == s[..k] + [s[k]] + s[k + 1..];
    }
  }

  /** A numeral and a non-digit in front of a string are read as one group
      in front of the groups of the string. */
  lemma ReadOneGroup(d: string, u: char, rest: string)
    requires d != [] && AllDigits(d) && !IsDigit(u)
    ensures Groups(d + [u] + rest) ==
      match Groups(rest)
      case None => None
      case Some(gs) => Some([Group(d, u, Value(d))] + gs)
  {
    var s := d + [u] + rest;
    assert s == d + ([u] + rest);
    SpanDigitsOf(d, [u] + rest);
    var k := |d|;
    assert s[..k] == d && s[k] == u && s[k + 1..] == rest;
  }

  /** How many groups `format_duration` writes for `t` seconds: one below
      a minute, two below an hour, three below a day, four from then on. */
  function Count(t: nat): (n: nat)
    ensures 1 <= n <= 4
  {
    if t < 60 then 1 else if t < 3600 then 2 else if t < 86400 then 3 else 4
  }

  /** The numerals of a compact duration's components: days and hours
      unpadded, minutes and seconds padded to two digits. */
  datatype Fields = Fields(days: string, hours: string, minutes: string, seconds: string)

  function FieldsOf(p: Parts): Fields
  {
    Fields(Decimal(p.days), Decimal(p.hours), Pad2(p.minutes), Pad2(p.seconds))
  }

  /** Each field is a numeral of its component. */
  predicate Numerals(p: Parts, f: Fields)
  {
    && f.days != [] && AllDigits(f.days) && Value(f.days) == p.days
    && f.hours != [] && AllDigits(f.hours) && Value(f.hours) == p.hours
    && f.minutes != [] && AllDigits(f.minutes) && Value(f.minutes) == p.minutes
    && f.seconds != [] && AllDigits(f.seconds) && Value(f.seconds) == p.seconds
  }

  lemma FieldsAreNumerals(p: Parts)
    ensures Numerals(p, FieldsOf(p))
  {
    ValueOfDecimal(p.days);
    ValueOfDecimal(p.hours);
  }

  /** The last `n` groups of a compact duration of the components `p`
      written with the fields `f`; the leading group is written unpadded,
      whatever `f` holds for it. */
  function LayoutOf(p: Parts, f: Fields, n: nat): seq<Group>
    requires 1 <= n <= 4
  {
    var d, h := Group(f.days, 'd', p.days), Group(f.hours, 'h', p.hours);
    var m, s := Group(f.minutes, 'm', p.minutes), Group(f.seconds, 's', p.seconds);
    if n == 1 then [Group(Decimal(p.seconds), 's', p.seconds)]
    else if n == 2 then [Group(Decimal(p.minutes), 'm', p.minutes), s]
    else if n == 3 then [h, m, s]
    else [d, h, m, s]
  }

  /** The groups `format_duration` writes for `t` seconds. */
  function Layout(t: nat): seq<Group>
  {
    var p := Split(t);
    LayoutOf(p, FieldsOf(p), Count(t))
  }

  /** Leading components that a layout of `n` groups leaves out are zero. */
  predicate Fits(p: Parts, n: nat)
  {
    (n < 4 ==> p.days == 0) && (n < 3 ==> p.hours == 0) && (n < 2 ==> p.minutes == 0)
  }

  /** What a layout of `n` groups is: well formed, with the units
      `dhms` minus the leading ones it leaves out, the matching components
      as numbers, and the total as its sum. */
  predicate Shaped(gs: seq<Group>, p: Parts, n: nat)
    requires 1 <= n <= 4
  {
    && AllWellFormed(gs)
    && Units(gs) == "dhms"[4 - n..]
    && Values(gs) == [p.days, p.hours, p.minutes, p.seconds][4 - n..]
    && (Fits(p, n) ==> Sum(gs) == Some(Total(p)))
  }

  lemma ShapedOne(p: Parts, f: Fields)
    ensures Shaped(LayoutOf(p, f, 1), p, 1)
  {
    var gs := LayoutOf(p, f, 1);
    ValueOfDecimal(p.seconds);
    assert WellFormed(gs[0]);
    assert SumFrom(gs, 1) == Some(0);
  }

  lemma ShapedTwo(p: Parts, f: Fields)
    requires Numerals(p, f)
    ensures Shaped(LayoutOf(p, f, 2), p, 2)
  {
    var gs := LayoutOf(p, f, 2);
    ValueOfDecimal(p.minutes);
    assert WellFormed(gs[0]) && WellFormed(gs[1]);
    assert SumFrom(gs, 2) == Some(0);
    assert SumFrom(gs, 1) == Some(p.seconds);
  }

  lemma ShapedThree(p: Parts, f: Fields)
    requires Numerals(p, f)
    ensures Shaped(LayoutOf(p, f, 3), p, 3)
  {
    var gs := LayoutOf(p, f, 3);
    assert WellFormed(gs[0]) && WellFormed(gs[1]) && WellFormed(gs[2]);
    assert SumFrom(gs, 3) == Some(0);
    assert SumFrom(gs, 2) == Some(p.seconds);
    assert SumFrom(gs, 1) == Some(60 * p.minutes + p.seconds);
  }

  lemma ShapedFour(p: Parts, f: Fields)
    requires Numerals(p, f)
    ensures Shaped(LayoutOf(p, f, 4), p, 4)
  {
    var gs := LayoutOf(p, f, 4);
    assert WellFormed(gs[0]) && WellFormed(gs[1]) && WellFormed(gs[2]) && WellFormed(gs[3]);
    assert SumFrom(gs, 4) == Some(0);
    assert SumFrom(gs, 3) == Some(p.seconds);
    assert SumFrom(gs, 2) == Some(60 * p.minutes + p.seconds);
    assert SumFrom(gs, 1) == Some(3600 * p.hours + (60 * p.minutes + p.seconds));
  }

  lemma ShapedAll(p: Parts, n: nat)
    requires 1 <= n <= 4
    ensures Shaped(LayoutOf(p, FieldsOf(p), n), p, n)
  {
    var f := FieldsOf(p);
    FieldsAreNumerals(p);
    if n == 1 { ShapedOne(p, f); }
    else if n == 2 { ShapedTwo(p, f); }
    else if n == 3 { ShapedThree(p, f); }
    else { ShapedFour(p, f); }
  }

  lemma SplitSmall(t: nat)
    ensures t < 86400 ==> Split(t).days == 0 && t / 3600 == Split(t).hours
    ensures t < 3600 ==> Split(t).hours == 0 && t / 60 == Split(t).minutes
    ensures t < 60 ==> Split(t).minutes == 0 && t == Split(t).seconds
  {
    var p := Split(t);
    if t < 86400 {
      assert p.days == 0;
      assert t == 3600 * p.hours + (60 * p.minutes + p.seconds);
      DivMod(t, 3600, p.hours, 60 * p.minutes + p.seconds);
      if t < 3600 {
        DivMod(t, 60, p.minutes, p.seconds);
      }
    }
  }

  /** The components `Split` gives fit the number of groups `Count` asks for. */
  lemma SplitFits(t: nat)
    ensures Fits(Split(t), Count(t))
  {
    SplitSmall(t);
  }

  /** Rendering two to four groups with the units of a compact duration,
      whatever their numerals. */
  lemma TwoGroups(c: string, vc: nat, e: string, ve: nat)
    ensures Render([Group(c, 'm', vc), Group(e, 's', ve)]) == c + "m" + e + "s"
  {
    var gs := [Group(c, 'm', vc), Group(e, 's', ve)];
    assert RenderFrom(gs, 2) == [];
    assert RenderFrom(gs, 1) == e + "s";
  }

  lemma ThreeGroups(b: string, vb: nat, c: string, vc: nat, e: string, ve: nat)
    ensures Render([Group(b, 'h', vb), Group(c, 'm', vc), Group(e, 's', ve)])
      == b + "h" + c + "m" + e + "s"
  {
    var gs := [Group(b, 'h', vb), Group(c, 'm', vc), Group(e, 's', ve)];
    assert RenderFrom(gs, 3) == [];
    assert RenderFrom(gs, 2) == e + "s";
    assert RenderFrom(gs, 1) == c + "m" + (e + "s");
  }

  lemma FourGroups(a: string, va: nat, b: string, vb: nat, c: string, vc: nat, e: string, ve: nat)
    ensures Render([Group(a, 'd', va), Group(b, 'h', vb), Group(c, 'm', vc), Group(e, 's', ve)])
      == a + "d" + b + "h" + c + "m" + e + "s"
  {
    var gs := [Group(a, 'd', va), Group(b, 'h', vb), Group(c, 'm', vc), Group(e, 's', ve)];
    assert RenderFrom(gs, 4) == [];
    assert RenderFrom(gs, 3) == e + "s";
    assert RenderFrom(gs, 2) == c + "m" + (e + "s");
    assert RenderFrom(gs, 1) == b + "h" + (c + "m" + (e + "s"));
  }

  /** `format_duration` writes the layout's groups one after the other. */
  lemma RendersLayout(seconds: u32)
    ensures FormatDuration(seconds, true) == Render(Layout(seconds as nat))
  {
    var t := seconds as nat;
    SplitSmall(t);
    if t < 60 { RendersSeconds(seconds); }
    else if t < 3600 { RendersMinutes(seconds); }
    else if t < 86400 { RendersHours(seconds); }
    else { RendersDays(seconds); }
  }

  lemma RendersSeconds(seconds: u32)
    requires seconds < 60
    ensures FormatDuration(seconds, true) == Render(Layout(seconds as nat))
  {
    var t := seconds as nat;
    SplitSmall(t);
    var gs := Layout(t);
    assert RenderFrom(gs, 1) == [];
  }

  lemma RendersMinutes(seconds: u32)
    requires 60 <= seconds < 3600
    ensures FormatDuration(seconds, true) == Render(Layout(seconds as nat))
  {
    var t := seconds as nat;
    SplitSmall(t);
    var p := Split(t);
    var gs := Layout(t);
    var c, e := Decimal(p.minutes), Pad2(p.seconds);
    assert gs == [Group(c, 'm', p.minutes), Group(e, 's', p.seconds)];
    TwoGroups(c, p.minutes, e, p.seconds);
  }

  lemma RendersHours(seconds: u32)
    requires 3600 <= seconds < 86400
    ensures FormatDuration(seconds, true) == Render(Layout(seconds as nat))
  {
    var t := seconds as nat;
    var p := Split(t);
    assert p.days == 0;
    DivMod(t, 3600, p.hours, 60 * p.minutes + p.seconds);
    var b, c, e := Decimal(p.hours), Pad2(p.minutes), Pad2(p.seconds);
    assert Layout(t) == [Group(b, 'h', p.hours), Group(c, 'm', p.minutes), Group(e, 's', p.seconds)];
    ThreeGroups(b, p.hours, c, p.minutes, e, p.seconds);
    assert FormatDuration(seconds, true) == b + "h" + c + "m" + e + "s";
  }

  lemma RendersDays(seconds: u32)
    requires 86400 <= seconds
    ensures FormatDuration(seconds, true) == Render(Layout(seconds as nat))
  {
    var t := seconds as nat;
    var p := Split(t);
    var gs := Layout(t);
    var a, b, c, e := Decimal(p.days), Decimal(p.hours), Pad2(p.minutes), Pad2(p.seconds);
    assert gs == [Group(a, 'd', p.days), Group(b, 'h', p.hours), Group(c, 'm', p.minutes), Group(e, 's', p.seconds)];
    FourGroups(a, p.days, b, p.hours, c, p.minutes, e, p.seconds);
    assert FormatDuration(seconds, true) == a + "d" + b + "h" + c + "m" + e + "s";
  }

  /** How a layout pads its numerals: the leading one is the value's
      shortest numeral, later minutes and seconds are two digits, and hours
      are never padded. */
  predicate Padded(gs: seq<Group>)
  {
    && 0 < |gs|
    && gs[0].digits == Decimal(gs[0].value)
    && (forall i :: 0 < i < |gs| && gs[i].unit != 'h' ==> |gs[i].digits| == 2)
    && (forall i :: 0 <= i < |gs| && gs[i].unit == 'h' ==> gs[i].digits == Decimal(gs[i].value))
  }

  lemma PaddedLayout(p: Parts, n: nat)
    requires Normal(p) && 1 <= n <= 4
    ensures Padded(LayoutOf(p, FieldsOf(p), n))
  {
    var gs := LayoutOf(p, FieldsOf(p), n);
    assert |Pad2(p.minutes)| == 2 && |Pad2(p.seconds)| == 2;
    if n == 1 {
    } else if n == 2 {
      assert gs[1].unit == 's';
    } else if n == 3 {
      assert gs[0].unit == 'h' && gs[1].unit == 'm' && gs[2].unit == 's';
    } else {
      assert gs[0].unit == 'd' && gs[1].unit == 'h' && gs[2].unit == 'm' && gs[3].unit == 's';
    }
  }

  /** Reading `format_duration`'s output as groups gives its layout. */
  lemma ReadsLayout(seconds: u32)
    ensures Groups(FormatDuration(seconds, true)) == Some(Layout(seconds as nat))
  {
    var t := seconds as nat;
    RendersLayout(seconds);
    ShapedAll(Split(t), Count(t));
    GroupsOfRender(Layout(t));
  }

  /** The units and numbers of the layout for `t` seconds. */
  lemma LayoutUnits(t: nat)
    ensures var p := Split(t); var gs := Layout(t);
      0 < |gs| <= 4 &&
      Units(gs) == (if t < 60 then "s" else if t < 3600 then "ms" else if t < 86400 then "hms" else "dhms") &&
      Values(gs) == [p.days, p.hours, p.minutes, p.seconds][4 - |gs|..]
  {
    var p, n := Split(t), Count(t);
    var gs := Layout(t);
    ShapedAll(p, n);
    assert |gs| == |Units(gs)| == n;
    assert "dhms"[4 - n..] == (if t < 60 then "s" else if t < 3600 then "ms" else if t < 86400 then "hms" else "dhms");
  }

  /** The numerals of the layout for `t` seconds. */
  lemma LayoutNumerals(t: nat)
    ensures var gs := Layout(t);
      0 < |gs| &&
      gs[0].digits == Decimal(Values(gs)[0]) &&
      (forall i :: 0 < i < |gs| && gs[i].unit != 'h' ==> |gs[i].digits| == 2) &&
      (forall i :: 0 <= i < |gs| && gs[i].unit == 'h' ==> gs[i].digits == Decimal(gs[i].value))
  {
    var gs := Layout(t);
    PaddedLayout(Split(t), Count(t));
    assert gs[0].value == Values(gs)[0];
  }

  /** The shape of a compact duration.  It is read as number-unit groups
      that write it back exactly, and it has
      the units `s`, `ms`, `hms` or `dhms` according to the thresholds of a
      minute, an hour and a day; the numbers are the trailing components of
      the normal decomposition; the leading number is unpadded; minutes and
      seconds after it are exactly two digits; and hours are never padded,
      not even after the days. */
  lemma CompactFields(seconds: u32)
    ensures var t := seconds as nat; var p := Split(t);
      var g := Groups(FormatDuration(seconds, true));
      g.Some? &&
      var gs := g.value;
      Render(gs) == FormatDuration(seconds, true) &&
      0 < |gs| <= 4 &&
      Units(gs) == (if t < 60 then "s" else if t < 3600 then "ms" else if t < 86400 then "hms" else "dhms") &&
      Values(gs) == [p.days, p.hours, p.minutes, p.seconds][4 - |gs|..] &&
      gs[0].digits == Decimal(Values(gs)[0]) &&
      (forall i :: 0 < i < |gs| && gs[i].unit != 'h' ==> |gs[i].digits| == 2) &&
      (forall i :: 0 <= i < |gs| && gs[i].unit == 'h' ==> gs[i].digits == Decimal(gs[i].value))
  {
    ReadsLayout(seconds);
    RenderOfGroups(FormatDuration(seconds, true));
    LayoutUnits(seconds as nat);
    LayoutNumerals(seconds as nat);
  }

  /** The compact duration is unambiguous: reading it back, with a day,
      an hour and a minute as the weights of `d`, `h` and `m`, gives the TTL. */
  lemma ParseFormattedDuration(seconds: u32)
    ensures ParseDuration(FormatDuration(seconds, true)) == Some(seconds as nat)
  {
    var t := seconds as nat;
    ReadsLayout(seconds);
    ShapedAll(Split(t), Count(t));
    SplitFits(t);
  }

  /** A compact duration under a hundred days fits the twelve-character TTL
      column. */
  lemma CompactWidth(seconds: u32)
    requires seconds as nat < 100 * 86400
    ensures |FormatDuration(seconds, true)| <= 12
  {
    var t := seconds as nat;
    var p := Split(t);
    SplitSmall(t);
    assert p.days < 100;
    assert Pow10(2) == 100;
    DecimalLength(p.days, 2);
    DecimalLength(p.hours, 2);
    DecimalLength(p.minutes, 2);
    DecimalLength(p.seconds, 2);
  }

  /** Compact durations of each branch, and the raw count. */
  lemma ExampleSeconds()
    ensures FormatDuration(0, true) == "0s"
    ensures FormatDuration(59, true) == "59s"
  {
    assert Decimal(59) == Decimal(5) + [DigitChar(9)];
  }

  lemma ExampleMinutes()
    ensures FormatDuration(60, true) == "1m00s"
    ensures FormatDuration(300, true) == "5m00s"
  {
    assert 60 / 60 == 1 && 60 % 60 == 0 && 300 / 60 == 5 && 300 % 60 == 0;
    assert FormatDuration(60, true) == Decimal(1) + "m" + Pad2(0) + "s";
    assert FormatDuration(300, true) == Decimal(5) + "m" + Pad2(0) + "s";
    assert Decimal(1) == "1" && Decimal(5) == "5";
    Pad2Small();
  }

  /** `{:02}` of the single digits the examples need. */
  lemma Pad2Small()
    ensures Pad2(0) == "00" && Pad2(1) == "01"
  {
    assert Repeat('0', 1) == "0";
  }

  lemma ExampleHours()
    ensures FormatDuration(3661, true) == "1h01m01s"
  {
    assert 3661 / 3600 == 1 && 3661 % 3600 == 61 && 61 / 60 == 1 && 3661 % 60 == 1;
    assert FormatDuration(3661, true) == Decimal(1) + "h" + Pad2(1) + "m" + Pad2(1) + "s";
    assert Decimal(1) == "1";
    Pad2Small();
  }

  lemma ExampleDays()
    ensures FormatDuration(90061, true) == "1d1h01m01s"
  {
    assert 90061 / 86400 == 1 && 90061 % 86400 == 3661 && 3661 / 3600 == 1;
    assert 90061 % 3600 == 61 && 61 / 60 == 1 && 90061 % 60 == 1;
    assert FormatDuration(90061, true) == Decimal(1) + "d" + Decimal(1) + "h" + Pad2(1) + "m" + Pad2(1) + "s";
    assert Decimal(1) == "1";
    Pad2Small();
  }

  /** The widest TTL, two to the thirty-second seconds less one, is
      written in fourteen characters, two more than the TTL column. */
  lemma ExampleWidest()
    ensures FormatDuration(0xFFFF_FFFF, true) == "49710d6h28m15s"
  {
    WidestFields();
    WidestText();
  }

  lemma WidestFields()
    ensures FormatDuration(0xFFFF_FFFF, true)
      == Decimal(49710) + "d" + Decimal(6) + "h" + Pad2(28) + "m" + Pad2(15) + "s"
  {
    assert 0xFFFF_FFFF / 86400 == 49710 && 0xFFFF_FFFF % 86400 == 23295 && 23295 / 3600 == 6;
    assert 0xFFFF_FFFF % 3600 == 1695 && 1695 / 60 == 28 && 0xFFFF_FFFF % 60 == 15;
  }

  lemma WidestText()
    ensures Decimal(49710) + "d" + Decimal(6) + "h" + Pad2(28) + "m" + Pad2(15) + "s" == "49710d6h28m15s"
  {
    assert Decimal(49710) == "49710" by { Decimal49710(); }
    assert Pad2(28) == "28" by { Pad2Of(28); }
    assert Pad2(15) == "15" by { Pad2Of(15); }
    assert Decimal(6) == "6";
    assert "49710" + "d" + "6" + "h" + "28" + "m" + "15" + "s" == "49710d6h28m15s";
  }

  lemma Decimal49710()
    ensures Decimal(49710) == "49710"
  {
    assert Decimal(49) == "49";
    assert Decimal(497) == "497";
    assert Decimal(4971) == "4971";
  }

  lemma Pad2Of(n: nat)
    requires 10 <= n < 100
    ensures Pad2(n) == [DigitChar(n / 10), DigitChar(n % 10)]
  {
    assert Decimal(n / 10) == [DigitChar(n / 10)];
    assert Pad2(n) == Decimal(n) == Decimal(n / 10) + [DigitChar(n % 10)];
  }

  lemma ExampleRaw()
    ensures FormatDuration(90061, false) == "90061"
  {
    assert Decimal(90) == "90";
    assert Decimal(900) == "900";
    assert Decimal(9006) == "9006";
    assert Decimal(90061) == "90061";
  }
}
