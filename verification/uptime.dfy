/**
 * `HealthCheck.formatUptime`: a number of seconds rendered as its non-zero
 * day, hour, minute and second parts, e.g. `"1d 2h 5s"`; zero is `"0s"`.
 */
module Uptime {
  import opened Strings
  import opened Wrappers

  /** One pushed part: an amount and its unit letter. */
  datatype Part = Part(amount: nat, unit: char)

  predicate IsUnit(c: char) {
    c == 'd' || c == 'h' || c == 'm' || c == 's'
  }

  function UnitSeconds(unit: char): nat {
    if unit == 'd' then 86400 else if unit == 'h' then 3600 else if unit == 'm' then 60 else 1
  }

  function UnitRank(unit: char): nat {
    if unit == 'd' then 0 else if unit == 'h' then 1 else if unit == 'm' then 2 else 3
  }

  /** Days, hours, minutes and remaining seconds of `seconds`. */
  function Components(seconds: nat): (c: (nat, nat, nat, nat))
    ensures c.1 < 24 && c.2 < 60 && c.3 < 60
    ensures 86400 * c.0 + 3600 * c.1 + 60 * c.2 + c.3 == seconds
  {
    var days := seconds / (3600 * 24);
    var hours := (seconds % (3600 * 24)) / 3600;
    var minutes := (seconds % 3600) / 60;
    var rest := seconds % 60;
    assert seconds % 3600 == (seconds % (3600 * 24)) % 3600;
    assert seconds % 60 == (seconds % 3600) % 60;
    (days, hours, minutes, rest)
  }

  function Total(parts: seq<Part>): nat {
    if |parts| == 0 then 0 else parts[0].amount * UnitSeconds(parts[0].unit) + Total(parts[1..])
  }

  lemma {:induction false} TotalAppend(a: seq<Part>, b: seq<Part>)
    ensures Total(a + b) == Total(a) + Total(b)
  {
    if |a| == 0 {
      assert a + b == b;
    } else {
      assert (a + b)[1..] == a[1..] + b;
      TotalAppend(a[1..], b);
    }
  }

  lemma TotalSingle(p: Part)
    ensures Total([p]) == p.amount * UnitSeconds(p.unit)
  {
    assert [p][1..] == [];
  }

  /** The parts pushed by `formatUptime`, in push order. */
  function Parts(seconds: nat): seq<Part> {
    var c := Components(seconds);
    var days, hours, minutes, rest := c.0, c.1, c.2, c.3;
    var p1 := if days > 0 then [Part(days, 'd')] else [];
    var p2 := p1 + if hours > 0 then [Part(hours, 'h')] else [];
    var p3 := p2 + if minutes > 0 then [Part(minutes, 'm')] else [];
    p3 + if rest > 0 || |p3| == 0 then [Part(rest, 's')] else []
  }

  /** Parts whose units come in the order d, h, m, s, each at most once. */
  predicate InUnitOrder(parts: seq<Part>) {
    && (forall i :: 0 <= i < |parts| ==> IsUnit(parts[i].unit))
    && (forall i, j :: 0 <= i < j < |parts| ==> UnitRank(parts[i].unit) < UnitRank(parts[j].unit))
  }

  /** An amount no larger than the next unit up allows. */
  predicate WithinUnit(p: Part) {
    (p.unit == 'h' ==> p.amount < 24) && (p.unit == 'm' || p.unit == 's' ==> p.amount < 60)
  }

  /**
   * The parts are never empty, come in the order d, h, m, s, are all non-zero
   * except a lone `0s`, and stay within the bounds of their unit.
   */
  lemma PartsShape(seconds: nat)
    ensures var parts := Parts(seconds);
      && |parts| >= 1
      && InUnitOrder(parts)
      && (forall i :: 0 <= i < |parts| ==> WithinUnit(parts[i]))
      && (forall i :: 0 <= i < |parts| ==> parts[i].amount > 0 || parts == [Part(0, 's')])
  {
    var c := Components(seconds);
    var days, hours, minutes, rest := c.0, c.1, c.2, c.3;
    var d := if days > 0 then [Part(days, 'd')] else [];
    var h := if hours > 0 then [Part(hours, 'h')] else [];
    var m := if minutes > 0 then [Part(minutes, 'm')] else [];
    var s := if rest > 0 || |d + h + m| == 0 then [Part(rest, 's')] else [];
    assert Parts(seconds) == d + h + m + s;
    PiecesShape(d, h, m, s);
  }

  /** A piece holding at most one part, of unit `u`, with a non-zero amount within its bounds. */
  predicate Piece(p: seq<Part>, u: char) {
    |p| <= 1 && forall i :: 0 <= i < |p| ==> p[i].unit == u && p[i].amount > 0 && WithinUnit(p[i])
  }

  lemma PiecesShape(d: seq<Part>, h: seq<Part>, m: seq<Part>, s: seq<Part>)
    requires Piece(d, 'd') && Piece(h, 'h') && Piece(m, 'm')
    requires |s| <= 1 && forall i :: 0 <= i < |s| ==> s[i].unit == 's' && s[i].amount < 60
    requires |d + h + m| == 0 ==> |s| == 1
    requires |d + h + m| > 0 && |s| == 1 ==> s[0].amount > 0
    ensures var parts := d + h + m + s;
      && |parts| >= 1
      && InUnitOrder(parts)
      && (forall i :: 0 <= i < |parts| ==> WithinUnit(parts[i]))
      && (forall i :: 0 <= i < |parts| ==> parts[i].amount > 0 || parts == [Part(0, 's')])
  {
    var parts := d + h + m + s;
    PiecesOrdered(d, h, m, s);
    forall i | 0 <= i < |parts| ensures WithinUnit(parts[i]) && (parts[i].amount > 0 || parts == [Part(0, 's')]) {
      if i < |d + h + m| {
        assert parts[i] == (d + h + m)[i];
        if i < |d| {
          assert parts[i] == d[i];
        } else if i < |d + h| {
          assert parts[i] == h[i - |d|];
        } else {
          assert parts[i] == m[i - |d + h|];
        }
      } else {
        assert parts[i] == s[i - |d + h + m|];
        if |d + h + m| == 0 {
          assert parts == s;
        }
      }
    }
  }

  lemma PiecesOrdered(d: seq<Part>, h: seq<Part>, m: seq<Part>, s: seq<Part>)
    requires Piece(d, 'd') && Piece(h, 'h') && Piece(m, 'm')
    requires |s| <= 1 && forall i :: 0 <= i < |s| ==> s[i].unit == 's'
    ensures InUnitOrder(d + h + m + s)
  {
    OrderedAppend(d, h, 1);
    OrderedAppend(d + h, m, 2);
    var dhm := d + h + m;
    forall i | 0 <= i < |dhm| ensures UnitRank(dhm[i].unit) < 3 {
      if i < |d + h| {
        assert dhm[i] == (d + h)[i];
      } else {
        assert dhm[i] == m[i - |d + h|];
      }
    }
    OrderedAppend(dhm, s, 3);
  }

  lemma OrderedAppend(a: seq<Part>, b: seq<Part>, r: nat)
    requires InUnitOrder(a) && InUnitOrder(b)
    requires forall i :: 0 <= i < |a| ==> UnitRank(a[i].unit) < r
    requires forall j :: 0 <= j < |b| ==> UnitRank(b[j].unit) >= r
    ensures InUnitOrder(a + b)
  {
    var ab := a + b;
    forall i, j | 0 <= i < j < |ab| ensures UnitRank(ab[i].unit) < UnitRank(ab[j].unit) {
      if j < |a| {
        assert ab[i] == a[i] && ab[j] == a[j];
      } else if i >= |a| {
        assert ab[i] == b[i - |a|] && ab[j] == b[j - |a|];
      } else {
        assert ab[i] == a[i] && ab[j] == b[j - |a|];
      }
    }
  }

  /** The parts add up to exactly `seconds`: 86400 d + 3600 h + 60 m + s. */
  lemma PartsTotal(seconds: nat)
    ensures Total(Parts(seconds)) == seconds
  {
    var c := Components(seconds);
    var days, hours, minutes, rest := c.0, c.1, c.2, c.3;
    var d := if days > 0 then [Part(days, 'd')] else [];
    var h := if hours > 0 then [Part(hours, 'h')] else [];
    var m := if minutes > 0 then [Part(minutes, 'm')] else [];
    var s := if rest > 0 || |d + h + m| == 0 then [Part(rest, 's')] else [];
    assert Parts(seconds) == d + h + m + s;
    PiecesTotal(d, h, m, s, days, hours, minutes, rest);
  }

  /** Four optional parts, one per unit, add up to the seconds they stand for. */
  lemma PiecesTotal(d: seq<Part>, h: seq<Part>, m: seq<Part>, s: seq<Part>,
                    days: nat, hours: nat, minutes: nat, rest: nat)
    requires (d == [] && days == 0) || d == [Part(days, 'd')]
    requires (h == [] && hours == 0) || h == [Part(hours, 'h')]
    requires (m == [] && minutes == 0) || m == [Part(minutes, 'm')]
    requires (s == [] && rest == 0) || s == [Part(rest, 's')]
    ensures Total(d + h + m + s) == 86400 * days + 3600 * hours + 60 * minutes + rest
  {
    PieceTotal(d, days, 'd', 86400);
    PieceTotal(h, hours, 'h', 3600);
    PieceTotal(m, minutes, 'm', 60);
    PieceTotal(s, rest, 's', 1);
    TotalOfFour(d, h, m, s);
  }

  /** A part that is either absent (amount 0) or alone contributes `amount` units. */
  lemma PieceTotal(x: seq<Part>, amount: nat, unit: char, scale: nat)
    requires (x == [] && amount == 0) || x == [Part(amount, unit)]
    requires UnitSeconds(unit) == scale
    ensures Total(x) == amount * scale
  {
    if x != [] {
      TotalSingle(Part(amount, unit));
    }
  }

  lemma TotalOfFour(d: seq<Part>, h: seq<Part>, m: seq<Part>, s: seq<Part>)
    ensures Total(d + h + m + s) == Total(d) + Total(h) + Total(m) + Total(s)
  {
    TotalAppend(d, h);
    TotalAppend(d + h, m);
    TotalAppend(d + h + m, s);
  }

  /** One part as `${amount}${unit}`. */
  function Render(p: Part): string {
    NatToString(p.amount) + [p.unit]
  }

  function RenderAll(parts: seq<Part>): (r: seq<string>)
    ensures |r| == |parts|
    ensures forall i :: 0 <= i < |parts| ==> r[i] == Render(parts[i])
  {
    seq(|parts|, i requires 0 <= i < |parts| => Render(parts[i]))
  }

  /** `formatUptime(seconds)`: the rendered parts joined by single spaces. */
  function FormatUptime(seconds: nat): (r: string)
    ensures r != ""
  {
    var rendered := RenderAll(Parts(seconds));
    PartsShape(seconds);
    assert |rendered[0]| >= 2;
    assert |rendered| == 1 || |Join(rendered, ' ')| >= |rendered[0]|;
    Join(rendered, ' ')
  }

  lemma FormatUptimeZero()
    ensures FormatUptime(0) == "0s"
  {
    assert Parts(0) == [Part(0, 's')];
  }

  lemma FormatUptimeExample()
    ensures FormatUptime(3600 * 24 + 3600 + 60 + 1) == "1d 1h 1m 1s"
  {
    var parts := [Part(1, 'd'), Part(1, 'h'), Part(1, 'm'), Part(1, 's')];
    assert Parts(3600 * 24 + 3600 + 60 + 1) == parts;
    RenderDigit(parts[0], '1');
    RenderDigit(parts[1], '1');
    RenderDigit(parts[2], '1');
    RenderDigit(parts[3], '1');
    assert RenderAll(parts) == ["1d", "1h", "1m", "1s"];
  }

  /** Zero hours and minutes are left out. */
  lemma FormatUptimeSkipsZeros()
    ensures FormatUptime(3600 * 24 * 2 + 5) == "2d 5s"
  {
    var parts := [Part(2, 'd'), Part(5, 's')];
    assert Parts(3600 * 24 * 2 + 5) == parts;
    RenderDigit(parts[0], '2');
    RenderDigit(parts[1], '5');
    assert RenderAll(parts) == ["2d", "5s"];
  }

  /** A one-digit amount renders as that digit followed by the unit. */
  lemma RenderDigit(p: Part, digit: char)
    requires p.amount < 10 && DigitChar(p.amount) == digit
    ensures Render(p) == [digit, p.unit]
  {
  }

  // ---------------------------------------------------------------------------
  // Reading an uptime back

  /** The seconds one token such as `"12h"` stands for. */
  function ParseToken(t: string): Option<nat> {
    if |t| < 2 || !IsUnit(t[|t| - 1]) || !AllDigits(t[..|t| - 1]) then None
    else Some(DigitsValue(t[..|t| - 1]) * UnitSeconds(t[|t| - 1]))
  }

  function ParseTokens(ts: seq<string>): Option<nat> {
    if |ts| == 0 then Some(0)
    else
      match (ParseToken(ts[0]), ParseTokens(ts[1..]))
      case (Some(a), Some(b)) => Some(a + b)
      case _ => None
  }

  function ParseUptime(text: string): Option<nat> {
    ParseTokens(Split(text, ' '))
  }

  lemma {:induction false} ParseRendered(parts: seq<Part>)
    requires forall i :: 0 <= i < |parts| ==> IsUnit(parts[i].unit)
    ensures ParseTokens(RenderAll(parts)) == Some(Total(parts))
  {
    if |parts| > 0 {
      var p := parts[0];
      var t := Render(p);
      DigitsRoundTrip(p.amount);
      assert t[..|t| - 1] == NatToString(p.amount);
      assert ParseToken(t) == Some(p.amount * UnitSeconds(p.unit));
      assert RenderAll(parts)[1..] == RenderAll(parts[1..]);
      ParseRendered(parts[1..]);
    }
  }

  /** Reading the formatted uptime back gives the original number of seconds. */
  lemma FormatUptimeRoundTrip(seconds: nat)
    ensures ParseUptime(FormatUptime(seconds)) == Some(seconds)
  {
    var parts := Parts(seconds);
    PartsShape(seconds);
    PartsTotal(seconds);
    var rendered := RenderAll(parts);
    forall k | 0 <= k < |rendered| ensures ' ' !in rendered[k] {
      assert rendered[k] == NatToString(parts[k].amount) + [parts[k].unit];
      assert AllDigits(NatToString(parts[k].amount));
    }
    SplitJoin(rendered, ' ');
    ParseRendered(parts);
  }
}
