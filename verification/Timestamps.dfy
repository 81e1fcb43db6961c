/** The text the store keeps for a moment in time: sections 5.1 and 5.6 of
    RFC 3339.  Comparing the texts compares the moments, second by second. */
module Timestamps {
  import opened Wrappers
  import opened Calendar
  import opened SeqLaws

  // ---------- Text order ----------

  // The byte order the database compares TEXT columns with.
  predicate Less(a: string, b: string) {
    b != [] && (a == [] || a[0] < b[0] || (a[0] == b[0] && Less(a[1..], b[1..])))
  }

  lemma {:induction false} LessConcat(a: string, b: string, x: string, y: string)
    requires |a| == |b|
    ensures Less(a + x, b + y) <==> Less(a, b) || (a == b && Less(x, y))
  {
    if a == [] {
      assert a + x == x && b + y == y;
    } else {
      LessConcat(a[1..], b[1..], x, y);
      assert (a + x)[1..] == a[1..] + x && (b + y)[1..] == b[1..] + y;
      assert a == [a[0]] + a[1..] && b == [b[0]] + b[1..];
    }
  }

  // ---------- Numbers of at least a given width ----------

  function Digit(d: nat): char
    requires d < 10
  {
    '0' + d as char
  }

  function Power10(w: nat): nat { if w == 0 then 1 else 10 * Power10(w - 1) }

  // Padded with zeros to `width`; wider when the number needs it.
  function Padded(n: nat, width: nat): string
    decreases n + width
  {
    if width <= 1 && n < 10 then [Digit(n)]
    else Padded(n / 10, if width > 1 then width - 1 else 1) + [Digit(n % 10)]
  }

  // The value of a string of decimal digits.
  function ReadNumber(s: string): Option<nat> {
    if s == [] then Some(0)
    else
      var front, d := ReadNumber(s[..|s| - 1]), s[|s| - 1];
      if front.Some? && '0' <= d <= '9' then Some(10 * front.value + (d - '0') as nat) else None
  }

  lemma {:induction false} PaddedWidth(n: nat, width: nat)
    requires width > 0 && n < Power10(width)
    ensures |Padded(n, width)| == width
  {
    if width > 1 { PaddedWidth(n / 10, width - 1); }
  }

  lemma {:induction false} ReadPadded(n: nat, width: nat)
    ensures ReadNumber(Padded(n, width)) == Some(n)
    decreases n + width
  {
    if width <= 1 && n < 10 {
      assert Padded(n, width)[..0] == [];
    } else {
      var w := if width > 1 then width - 1 else 1;
      ReadPadded(n / 10, w);
      var s := Padded(n, width);
      assert s[..|s| - 1] == Padded(n / 10, w);
    }
  }

  lemma LastDigit(front: nat, d: nat)
    requires d < 10
    ensures (10 * front + d) / 10 == front && (10 * front + d) % 10 == d
  {}

  lemma {:induction false} PaddedRead(s: string)
    requires s != [] && ReadNumber(s).Some?
    ensures ReadNumber(s).value < Power10(|s|) && Padded(ReadNumber(s).value, |s|) == s
  {
    var front, c := s[..|s| - 1], s[|s| - 1];
    var f, d := ReadNumber(front).value, (c - '0') as nat;
    assert s == front + [c] && Digit(d) == c;
    if |s| == 1 {
      assert s == [c] && f == 0;
    } else {
      PaddedRead(front);
      LastDigit(f, d);
      assert |s| - 1 == |front| && ReadNumber(s).value == 10 * f + d;
      hide ReadNumber;
      assert Padded(10 * f + d, |s|) == Padded(f, |front|) + [Digit(d)];
    }
  }

  lemma {:induction false} PaddedOrder(m: nat, n: nat, width: nat)
    requires width > 0 && m < Power10(width) && n < Power10(width)
    ensures Less(Padded(m, width), Padded(n, width)) <==> m < n
    ensures Padded(m, width) == Padded(n, width) <==> m == n
  {
    if m != n {
      ReadPadded(m, width);
      ReadPadded(n, width);
    }
    hide ReadNumber;
    if width > 1 {
      var a, b := Padded(m / 10, width - 1), Padded(n / 10, width - 1);
      PaddedOrder(m / 10, n / 10, width - 1);
      PaddedWidth(m / 10, width - 1);
      PaddedWidth(n / 10, width - 1);
      LessConcat(a, b, [Digit(m % 10)], [Digit(n % 10)]);
    }
  }

  // ---------- Fields ----------

  // A field is a number of a given width and the character that follows it.
  datatype Field = Field(width: nat, after: char)

  // RFC 3339 in UTC: 2006-01-02T15:04:05Z.
  const LAYOUT := [Field(4, '-'), Field(2, '-'), Field(2, 'T'), Field(2, ':'), Field(2, ':'), Field(2, 'Z')]

  function Text(layout: seq<Field>, values: seq<nat>): string
    requires |values| == |layout|
  {
    if layout == [] then []
    else Padded(values[0], layout[0].width) + [layout[0].after] + Text(layout[1..], values[1..])
  }

  // Reads the fields at their exact widths, and nothing after them.
  function ReadText(layout: seq<Field>, s: string): Option<seq<nat>> {
    if layout == [] then if s == [] then Some([]) else None
    else
      var w := layout[0].width;
      if w >= |s| || s[w] != layout[0].after then None
      else
        var v, rest := ReadNumber(s[..w]), ReadText(layout[1..], s[w + 1..]);
        if v.Some? && rest.Some? then Some([v.value] + rest.value) else None
  }

  predicate Fits(layout: seq<Field>, values: seq<nat>) {
    && |values| == |layout|
    && forall i :: 0 <= i < |layout| ==> layout[i].width > 0 && values[i] < Power10(layout[i].width)
  }

  predicate LexLess(a: seq<nat>, b: seq<nat>)
    requires |a| == |b|
  {
    a != [] && (a[0] < b[0] || (a[0] == b[0] && LexLess(a[1..], b[1..])))
  }

  lemma {:induction false} TextOrder(layout: seq<Field>, a: seq<nat>, b: seq<nat>)
    requires Fits(layout, a) && Fits(layout, b)
    ensures Less(Text(layout, a), Text(layout, b)) <==> LexLess(a, b)
  {
    if layout != [] {
      var w, sep := layout[0].width, [layout[0].after];
      var p, q := Padded(a[0], w), Padded(b[0], w);
      var x, y := Text(layout[1..], a[1..]), Text(layout[1..], b[1..]);
      PaddedOrder(a[0], b[0], w);
      PaddedWidth(a[0], w);
      PaddedWidth(b[0], w);
      TextOrder(layout[1..], a[1..], b[1..]);
      LessConcat(p + sep, q + sep, x, y);
      LessConcat(p, q, sep, sep);
      assert (p + sep)[..w] == p && (q + sep)[..w] == q;
      assert !Less(sep, sep);
      assert Text(layout, a) == (p + sep) + x && Text(layout, b) == (q + sep) + y;
      assert p + sep == q + sep <==> a[0] == b[0];
      assert Less(p + sep, q + sep) <==> a[0] < b[0];
      assert Less((p + sep) + x, (q + sep) + y) <==> LexLess(a, b);
    } else {
      assert a == [] && b == [] && Text(layout, a) == [];
    }
  }

  lemma ReadStep(layout: seq<Field>, digits: string, rest: string)
    requires layout != [] && |digits| == layout[0].width
    ensures var v, vs := ReadNumber(digits), ReadText(layout[1..], rest);
            ReadText(layout, digits + [layout[0].after] + rest)
            == if v.Some? && vs.Some? then Some([v.value] + vs.value) else None
  {
    hide ReadNumber;
    var s, w := digits + [layout[0].after] + rest, |digits|;
    assert s[..w] == digits && s[w] == layout[0].after && s[w + 1..] == rest;
  }

  lemma {:induction false} ReadBack(layout: seq<Field>, values: seq<nat>)
    requires Fits(layout, values)
    ensures ReadText(layout, Text(layout, values)) == Some(values)
  {
    if layout != [] {
      hide ReadNumber, ReadText, Padded, Power10;
      PaddedWidth(values[0], layout[0].width);
      ReadPadded(values[0], layout[0].width);
      ReadBack(layout[1..], values[1..]);
      ReadStep(layout, Padded(values[0], layout[0].width), Text(layout[1..], values[1..]));
      assert [values[0]] + values[1..] == values;
    } else {
      assert values == [] && Text(layout, values) == [];
    }
  }

  lemma ReadParts(layout: seq<Field>, s: string)
    requires layout != [] && ReadText(layout, s).Some?
    ensures var w := layout[0].width;
            && w < |s| && s[w] == layout[0].after
            && ReadNumber(s[..w]).Some? && ReadText(layout[1..], s[w + 1..]).Some?
            && ReadText(layout, s).value == [ReadNumber(s[..w]).value] + ReadText(layout[1..], s[w + 1..]).value
  {
    hide ReadNumber;
  }

  lemma TextParts(layout: seq<Field>, v: nat, rest: seq<nat>)
    requires layout != [] && layout[0].width > 0 && v < Power10(layout[0].width)
    requires Fits(layout[1..], rest)
    ensures Fits(layout, [v] + rest)
    ensures Text(layout, [v] + rest) == Padded(v, layout[0].width) + [layout[0].after] + Text(layout[1..], rest)
  {
    hide Padded, Power10;
    assert ([v] + rest)[1..] == rest;
    forall i | 0 <= i < |layout|
      ensures layout[i].width > 0 && ([v] + rest)[i] < Power10(layout[i].width)
    {
      if i > 0 { assert layout[i] == layout[1..][i - 1] && ([v] + rest)[i] == rest[i - 1]; }
    }
  }

  lemma {:induction false} WriteBack(layout: seq<Field>, s: string)
    requires forall f :: f in layout ==> f.width > 0
    requires ReadText(layout, s).Some?
    ensures var values := ReadText(layout, s).value;
            Fits(layout, values) && Text(layout, values) == s
  {
    if layout != [] {
      var w := layout[0].width;
      ReadParts(layout, s);
      var v, rest := ReadNumber(s[..w]).value, ReadText(layout[1..], s[w + 1..]).value;
      hide ReadText, ReadNumber, Padded, Power10, Text, Fits;
      PaddedRead(s[..w]);
      WriteBack(layout[1..], s[w + 1..]);
      TextParts(layout, v, rest);
      SplitAround(s, w);
    } else {
      assert s == [] && ReadText(layout, s).value == [];
    }
  }

  // ---------- Moments ----------

  // Seconds since the start of year 0, and what is left below a second.
  datatype Moment = Moment(seconds: nat, nanos: nat)

  function Year(t: Moment): nat { CivilOf(t.seconds).year }

  function Values(c: Civil): seq<nat> { [c.year, c.month, c.day, c.hour, c.minute, c.second] }

  function Format(t: Moment): string { Text(LAYOUT, Values(CivilOf(t.seconds))) }

  // None where the source reports an error: a text of another shape, or fields
  // that are no date or time.
  function Parse(s: string): Option<Moment> {
    var v := ReadText(LAYOUT, s);
    if v.None? || |v.value| != 6 then None
    else
      var c := Civil(v.value[0], v.value[1], v.value[2], v.value[3], v.value[4], v.value[5]);
      if c.Valid() then Some(Moment(c.Seconds(), 0)) else None
  }

  // The text spelled out: year, month and day with dashes, a T, hour, minute and
  // second with colons, a Z.
  function Spelled(c: Civil): string {
    Padded(c.year, 4) + "-" + (Padded(c.month, 2) + "-" + (Padded(c.day, 2) + "T" + ClockTime(c)))
  }

  function ClockTime(c: Civil): string {
    Padded(c.hour, 2) + ":" + (Padded(c.minute, 2) + ":" + (Padded(c.second, 2) + "Z"))
  }

  lemma FormatSpelled(t: Moment)
    ensures Format(t) == Spelled(CivilOf(t.seconds))
  {
    hide CivilOf, Padded, Text, ClockTime;
    var c := CivilOf(t.seconds);
    ClockSpelled(c);
    FieldThen(LAYOUT[2..], c.day, [c.hour, c.minute, c.second]);
    FieldThen(LAYOUT[1..], c.month, [c.day, c.hour, c.minute, c.second]);
    FieldThen(LAYOUT, c.year, [c.month, c.day, c.hour, c.minute, c.second]);
    assert LAYOUT[1..][1..] == LAYOUT[2..] && LAYOUT[2..][1..] == LAYOUT[3..];
    assert [c.month] + [c.day, c.hour, c.minute, c.second] == [c.month, c.day, c.hour, c.minute, c.second];
    assert [c.day] + [c.hour, c.minute, c.second] == [c.day, c.hour, c.minute, c.second];
    assert [c.year] + [c.month, c.day, c.hour, c.minute, c.second] == Values(c);
  }

  lemma ClockSpelled(c: Civil)
    ensures Text(LAYOUT[3..], [c.hour, c.minute, c.second]) == ClockTime(c)
  {
    hide Padded, Text;
    NoText();
    FieldThen(LAYOUT[5..], c.second, []);
    FieldThen(LAYOUT[4..], c.minute, [c.second]);
    FieldThen(LAYOUT[3..], c.hour, [c.minute, c.second]);
    assert LAYOUT[3..][1..] == LAYOUT[4..] && LAYOUT[4..][1..] == LAYOUT[5..] && LAYOUT[5..][1..] == [];
    assert [c.second] + [] == [c.second] && [c.minute] + [c.second] == [c.minute, c.second];
    assert [c.hour] + [c.minute, c.second] == [c.hour, c.minute, c.second];
  }

  lemma NoText()
    ensures Text([], []) == []
  {}

  lemma FieldThen(layout: seq<Field>, v: nat, rest: seq<nat>)
    requires layout != [] && |layout| == 1 + |rest|
    ensures Text(layout, [v] + rest) == Padded(v, layout[0].width) + [layout[0].after] + Text(layout[1..], rest)
  {
    assert ([v] + rest)[1..] == rest;
  }

  lemma ValuesFit(c: Civil)
    requires c.Valid() && c.year <= 9999
    ensures Fits(LAYOUT, Values(c))
  {
    assert Power10(2) == 100;
    assert Power10(4) == 100 * Power10(2);
  }

  lemma LexStep(x: nat, y: nat, a: seq<nat>, b: seq<nat>)
    requires |a| == |b|
    ensures LexLess([x] + a, [y] + b) <==> x < y || (x == y && LexLess(a, b))
  {
    assert ([x] + a)[1..] == a && ([y] + b)[1..] == b;
  }

  lemma ValuesOrder(a: Civil, b: Civil)
    ensures LexLess(Values(a), Values(b)) <==> a.Before(b)
  {
    LexStep(a.second, b.second, [], []);
    LexStep(a.minute, b.minute, [a.second], [b.second]);
    LexStep(a.hour, b.hour, [a.minute, a.second], [b.minute, b.second]);
    LexStep(a.day, b.day, [a.hour, a.minute, a.second], [b.hour, b.minute, b.second]);
    LexStep(a.month, b.month, [a.day, a.hour, a.minute, a.second], [b.day, b.hour, b.minute, b.second]);
    LexStep(a.year, b.year, Values(a)[1..], Values(b)[1..]);
    assert Values(a) == [a.year] + Values(a)[1..] && Values(b) == [b.year] + Values(b)[1..];
    assert Values(a)[1..] == [a.month] + [a.day, a.hour, a.minute, a.second];
    assert Values(b)[1..] == [b.month] + [b.day, b.hour, b.minute, b.second];
    hide LexLess;
  }

  // ---------- The order of texts, in every year ----------

  function YearWidth(year: nat): nat { |Padded(year, 4)| }

  lemma {:induction false} PaddedAs(n: nat, width: nat)
    requires width > 0
    ensures var w := |Padded(n, width)|; w >= width && n < Power10(w) && Padded(n, w) == Padded(n, width)
    decreases n + width
  {
    if !(width <= 1 && n < 10) {
      PaddedAs(n / 10, if width > 1 then width - 1 else 1);
    }
  }

  // A number without its last k digits.
  function Leading(n: nat, k: nat): nat { if k == 0 then n else Leading(n / 10, k - 1) }

  lemma {:induction false} PaddedPrefix(n: nat, w: nat, k: nat)
    requires w > 0 && n < Power10(w + k)
    ensures Leading(n, k) < Power10(w)
    ensures |Padded(n, w + k)| == w + k && Padded(n, w + k)[..w] == Padded(Leading(n, k), w)
  {
    PaddedWidth(n, w + k);
    if k > 0 { PaddedPrefix(n / 10, w, k - 1); }
  }

  // A number that takes k more digits compares by its leading ones.
  lemma PrefixOrder(m: nat, n: nat, p: string, q: string, k: nat)
    requires p == Padded(m, 4) && q == Padded(n, 4) && |q| == |p| + k
    ensures Less(p, q[..|p|]) <==> m < Leading(n, k)
    ensures Less(q[..|p|], p) <==> Leading(n, k) < m
    ensures p == q[..|p|] <==> m == Leading(n, k)
  {
    hide Less, Padded, Power10;
    PaddedAs(m, 4);
    PaddedAs(n, 4);
    PaddedPrefix(n, |p|, k);
    PaddedOrder(m, Leading(n, k), |p|);
    PaddedOrder(Leading(n, k), m, |p|);
  }

  lemma DigitAfterDash(x: string, y: string)
    requires x != [] && x[0] == '-' && y != [] && '0' <= y[0]
    ensures Less(x, y) && !Less(y, x)
  {}

  // The longer one goes on with a digit where the other has its separator.
  lemma LongerLast(p: string, front: string, more: string, x: string, y: string)
    requires |p| == |front| && more != [] && '0' <= more[0]
    ensures Less(p + (['-'] + x), (front + more) + y) <==> Less(p, front) || p == front
    ensures Less((front + more) + y, p + (['-'] + x)) <==> Less(front, p)
  {
    hide Less;
    ConcatAssoc(front, more, y);
    DigitAfterDash(['-'] + x, more + y);
    LessConcat(p, front, ['-'] + x, more + y);
    LessConcat(front, p, more + y, ['-'] + x);
  }

  function AfterYear(c: Civil): string { Text(LAYOUT[1..], Values(c)[1..]) }

  lemma YearFirst(c: Civil)
    ensures Text(LAYOUT, Values(c)) == Padded(c.year, 4) + (['-'] + AfterYear(c))
  {
    hide Padded;
  }

  lemma AfterYearOrder(c: Civil, d: Civil)
    requires c.Valid() && d.Valid()
    ensures Less(['-'] + AfterYear(c), ['-'] + AfterYear(d)) <==> LexLess(Values(c)[1..], Values(d)[1..])
  {
    assert Power10(2) == 100;
    hide Text, LexLess, Less;
    TextOrder(LAYOUT[1..], Values(c)[1..], Values(d)[1..]);
    LessConcat(['-'], ['-'], AfterYear(c), AfterYear(d));
    DashAlone();
  }

  lemma DashAlone()
    ensures !Less(['-'], ['-'])
  {}

  lemma SameWidth(c: Civil, d: Civil)
    requires c.Valid() && d.Valid() && YearWidth(c.year) == YearWidth(d.year)
    ensures Less(Text(LAYOUT, Values(c)), Text(LAYOUT, Values(d))) <==> c.Before(d)
  {
    hide Padded, Less, Text, Power10;
    var p, q := Padded(c.year, 4), Padded(d.year, 4);
    YearFirst(c);
    YearFirst(d);
    PrefixOrder(c.year, d.year, p, q, 0);
    assert q[..|p|] == q;
    LessConcat(p, q, ['-'] + AfterYear(c), ['-'] + AfterYear(d));
    AfterYearOrder(c, d);
    ValuesOrder(c, d);
    LexStep(c.year, d.year, Values(c)[1..], Values(d)[1..]);
    assert Values(c) == [c.year] + Values(c)[1..] && Values(d) == [d.year] + Values(d)[1..];
  }

  lemma LongerYear(c: Civil, d: Civil, k: nat)
    requires k > 0 && YearWidth(d.year) == YearWidth(c.year) + k
    ensures Less(Text(LAYOUT, Values(c)), Text(LAYOUT, Values(d))) <==> c.year <= Leading(d.year, k)
    ensures Less(Text(LAYOUT, Values(d)), Text(LAYOUT, Values(c))) <==> Leading(d.year, k) < c.year
  {
    hide Padded, Less, Text, Power10;
    var p, q := Padded(c.year, 4), Padded(d.year, 4);
    YearFirst(c);
    YearFirst(d);
    PaddedDigits(d.year, 4);
    PrefixOrder(c.year, d.year, p, q, k);
    SplitAt(q, |p|);
    assert q[|p|..][0] == q[|p|] && q[|p|] in q;
    LongerLast(p, q[..|p|], q[|p|..], AfterYear(c), ['-'] + AfterYear(d));
  }

  lemma WiderIsLater(m: nat, n: nat)
    requires YearWidth(m) < YearWidth(n)
    ensures m < n
  {
    hide Padded;
    if n <= m {
      PaddedAs(m, 4);
      PaddedAs(n, 4);
      NarrowStays(n, 4, YearWidth(m));
    }
  }

  // A number that fits a width takes no more.
  lemma {:induction false} NarrowStays(n: nat, width: nat, w: nat)
    requires 0 < width <= w && n < Power10(w)
    ensures |Padded(n, width)| <= w
    decreases n + width
  {
    if width > 1 {
      NarrowStays(n / 10, width - 1, w - 1);
    } else if n >= 10 {
      assert w > 1 by { assert Power10(1) == 10; }
      NarrowStays(n / 10, 1, w - 1);
    }
  }

  // The earlier text in the database's order: years that take equally many
  // digits compare as times, and otherwise the leading digits of the longer
  // year decide.
  predicate TextBefore(a: Moment, b: Moment) {
    var m, n := Year(a), Year(b);
    var v, w := YearWidth(m), YearWidth(n);
    if v == w then a.seconds < b.seconds
    else if v < w then m <= Leading(n, w - v)
    else Leading(m, v - w) < n
  }

  lemma TextOrderExact(a: Moment, b: Moment)
    ensures Less(Format(a), Format(b)) <==> TextBefore(a, b)
  {
    hide CivilOf, Text, Less, LexLess, Values, Padded, Power10;
    var c, d := CivilOf(a.seconds), CivilOf(b.seconds);
    var v, w := YearWidth(c.year), YearWidth(d.year);
    if v == w {
      SameWidth(c, d);
      OneToOne(c, b.seconds);
    } else if v < w {
      LongerYear(c, d, w - v);
    } else {
      LongerYear(d, c, v - w);
    }
  }

  // So the later of two moments has the later text if and only if their years
  // take equally many digits or the order survives the difference in length.
  lemma LaterTextExact(a: Moment, b: Moment)
    requires a.seconds < b.seconds
    ensures YearWidth(Year(a)) <= YearWidth(Year(b))
    ensures var k := YearWidth(Year(b)) - YearWidth(Year(a));
            Less(Format(a), Format(b)) <==> k == 0 || Year(a) <= Leading(Year(b), k)
  {
    hide CivilOf, Padded, Power10, Less, Format;
    var c, d := CivilOf(a.seconds), CivilOf(b.seconds);
    OneToOne(c, b.seconds);
    if YearWidth(d.year) < YearWidth(c.year) {
      WiderIsLater(d.year, c.year);
    }
    TextOrderExact(a, b);
  }

  // The texts of two moments up to the year 9999 compare as the moments do, cut
  // to the second.
  lemma TextOrderIsTimeOrder(a: Moment, b: Moment)
    requires Year(a) <= 9999 && Year(b) <= 9999
    ensures Less(Format(a), Format(b)) <==> a.seconds < b.seconds
  {
    assert Power10(2) == 100;
    assert Power10(4) == 100 * Power10(2);
    hide CivilOf, Padded, Less, Format;
    PaddedWidth(Year(a), 4);
    PaddedWidth(Year(b), 4);
    TextOrderExact(a, b);
  }

  // A number too long for its width leaves a digit where the separator belongs.
  lemma {:induction false} PaddedLong(n: nat, width: nat)
    requires n >= Power10(width)
    ensures |Padded(n, width)| > width
    ensures forall c :: c in Padded(n, width) ==> '0' <= c <= '9'
    decreases n + width
  {
    if width > 1 {
      PaddedLong(n / 10, width - 1);
    } else {
      PaddedDigits(n, width);
    }
  }

  lemma {:induction false} PaddedDigits(n: nat, width: nat)
    ensures forall c :: c in Padded(n, width) ==> '0' <= c <= '9'
    ensures n >= 10 ==> |Padded(n, width)| > 1
    ensures Padded(n, width) != []
    decreases n + width
  {
    if !(width <= 1 && n < 10) { PaddedDigits(n / 10, if width > 1 then width - 1 else 1); }
  }

  // Reading a written time gives it back, cut to the second; it can be read
  // exactly when its year has four digits.
  lemma ParseFormat(t: Moment)
    ensures Parse(Format(t)) == if Year(t) <= 9999 then Some(Moment(t.seconds, 0)) else None
  {
    hide CivilOf, Text, ReadText;
    var c := CivilOf(t.seconds);
    if c.year <= 9999 {
      ValuesFit(c);
      ReadBack(LAYOUT, Values(c));
    } else {
      LongYear(c);
    }
  }

  lemma LongYear(c: Civil)
    requires c.year > 9999
    ensures ReadText(LAYOUT, Text(LAYOUT, Values(c))).None?
  {
    assert Power10(2) == 100;
    assert Power10(4) == 100 * Power10(2);
    PaddedLong(c.year, 4);
    var s := Text(LAYOUT, Values(c));
    assert s[4] == Padded(c.year, 4)[4];
    assert s[4] in Padded(c.year, 4);
  }

  // A text that can be read is the text of the time it stands for.
  lemma FormatParse(s: string)
    requires Parse(s).Some?
    ensures var t := Parse(s).value; Year(t) <= 9999 && Format(t) == s
  {
    hide CivilOf, Text, ReadText;
    WriteBack(LAYOUT, s);
    var v := ReadText(LAYOUT, s).value;
    var c := Civil(v[0], v[1], v[2], v[3], v[4], v[5]);
    assert v == Values(c);
    OneToOne(c, c.Seconds());
    assert v[0] < Power10(LAYOUT[0].width);
    assert Power10(2) == 100;
    assert Power10(4) == 100 * Power10(2);
  }

  // Past the year 9999 the text order breaks: the first day of the year 10000
  // sorts before the last day of 9999.
  lemma OrderBreaks()
    ensures var a, b := Civil(9999, 12, 31, 0, 0, 0), Civil(10000, 1, 1, 0, 0, 0);
            a.Valid() && b.Valid() && a.Seconds() < b.Seconds()
            && Less(Format(Moment(b.Seconds(), 0)), Format(Moment(a.Seconds(), 0)))
  {
    var a, b := Civil(9999, 12, 31, 0, 0, 0), Civil(10000, 1, 1, 0, 0, 0);
    hide CivilOf, Civil.Seconds;
    Monotone(a, b);
    OneToOne(a, a.Seconds());
    OneToOne(b, b.Seconds());
    FirstDigits();
    assert Text(LAYOUT, Values(a))[0] == Padded(9999, 4)[0];
    assert Text(LAYOUT, Values(b))[0] == Padded(10000, 4)[0];
  }

  lemma FirstDigits()
    ensures Padded(9999, 4) != [] && Padded(9999, 4)[0] == '9'
    ensures Padded(10000, 4) != [] && Padded(10000, 4)[0] == '1'
  {
    assert Padded(99, 2) == ['9', '9'];
    assert Padded(999, 3) == Padded(99, 2) + ['9'];
    assert Padded(9999, 4) == Padded(999, 3) + ['9'];
    assert Padded(10, 1) == ['1', '0'];
    assert Padded(100, 2) == Padded(10, 1) + ['0'];
    assert Padded(1000, 3) == Padded(100, 2) + ['0'];
    assert Padded(10000, 4) == Padded(1000, 3) + ['0'];
  }
}
