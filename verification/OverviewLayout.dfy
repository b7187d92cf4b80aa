/** The window manager's overview mode arithmetic: how the toplevel windows are scaled and spread
    over the width of the screen.  Doubles are modelled as reals; where the source converts a
    double or a quotient of ints to int, the model truncates towards zero. */
module OverviewLayout {
  import opened Options

  const WINDOW_PADDING: int := 10

  const OVERVIEW_HEIGHT_FRACTION: real := 0.3

  // ----- Conversions to int

  function Trunc(r: real): int {
    if r >= 0.0 then r.Floor else -((-r).Floor)
  }

  /** C's round: half away from zero. */
  function Round(r: real): int {
    if r >= 0.0 then (r + 0.5).Floor else -((-r + 0.5).Floor)
  }

  /** C's integer division by a positive number. */
  function Quotient(a: int, b: int): int
    requires b > 0
  {
    if a >= 0 then a / b else -((-a) / b)
  }

  function Min(a: real, b: real): real {
    if b < a then b else a
  }

  /** The height of the overview area on a screen of this height. */
  function OverviewHeight(height: int): int {
    Trunc(OVERVIEW_HEIGHT_FRACTION * height as real)
  }

  lemma OverviewHeightIs(height: int)
    requires height >= 0
    ensures 10 * OverviewHeight(height) <= 3 * height < 10 * OverviewHeight(height) + 10
  {
  }

  /** A number without its fraction, on the side of zero. */
  ghost predicate Truncates(r: real, n: int) {
    if r >= 0.0 then n as real <= r < n as real + 1.0 else n as real - 1.0 < r <= n as real
  }

  lemma TruncTruncates(r: real)
    ensures Truncates(r, Trunc(r))
  {
  }

  /** The nearest int; of two that are as near, the one further from zero. */
  ghost predicate Rounds(r: real, n: int) {
    if r >= 0.0 then n as real - 0.5 <= r < n as real + 0.5 else n as real - 0.5 < r <= n as real + 0.5
  }

  lemma RoundRounds(r: real)
    ensures Rounds(r, Round(r))
  {
  }

  /** Division of ints leaves a remainder with the sign of the dividend. */
  lemma QuotientTruncates(a: int, b: int)
    requires b > 0
    ensures a >= 0 ==> b * Quotient(a, b) <= a < b * Quotient(a, b) + b
    ensures a < 0 ==> b * Quotient(a, b) - b < a <= b * Quotient(a, b)
  {
    if a < 0 {
      var q := (-a) / b;
      assert -a == q * b + (-a) % b;
      assert b * (-q) == -(q * b);
    }
  }

  // ----- Windows

  datatype Toplevel = Toplevel(clientWidth: int, clientHeight: int,
                               overviewX: int, overviewY: int,
                               overviewWidth: int, overviewHeight: int, overviewScale: real)

  /** The scale at which a window of this size just fits into the given box. */
  function Scale(t: Toplevel, maxWidth: int, maxHeight: int): real
    requires t.clientWidth > 0 && t.clientHeight > 0
  {
    Min(maxWidth as real / t.clientWidth as real, maxHeight as real / t.clientHeight as real)
  }

  function Scaled(t: Toplevel, maxWidth: int, maxHeight: int): Toplevel
    requires t.clientWidth > 0 && t.clientHeight > 0
  {
    var scale := Scale(t, maxWidth, maxHeight);
    t.(overviewWidth := Resized(scale, t.clientWidth),
       overviewHeight := Resized(scale, t.clientHeight),
       overviewScale := scale)
  }

  function Resized(scale: real, size: int): int {
    Trunc(scale * size as real)
  }

  /** A scaled size, without the fraction of a pixel. */
  ghost predicate SizedBy(scale: real, size: int, scaled: int) {
    Truncates(scale * size as real, scaled)
  }

  lemma ResizedIs(scale: real, size: int)
    ensures SizedBy(scale, size, Resized(scale, size))
  {
    TruncTruncates(scale * size as real);
    hide Truncates;
  }

  lemma QuotientTimes(a: real, c: real)
    requires c > 0.0
    ensures a / c * c == a
  {
  }

  lemma TimesPositive(a: real, b: real, c: real)
    requires a <= b && c > 0.0
    ensures a * c <= b * c
  {
  }

  /** A scaled window fits into its box and fills it in one direction, for a box that exists; in
      any case it is no wider than the box. */
  lemma ScaledFits(t: Toplevel, maxWidth: int, maxHeight: int)
    requires t.clientWidth > 0 && t.clientHeight > 0 && maxHeight >= 0
    ensures var s := Scaled(t, maxWidth, maxHeight);
            && s.overviewWidth <= maxWidth
            && (maxWidth >= 0 ==> 0 <= s.overviewWidth && 0 <= s.overviewHeight <= maxHeight)
            && (maxWidth >= 0 ==> s.overviewWidth == maxWidth || s.overviewHeight == maxHeight)
            && (maxWidth < 0 ==> s.overviewWidth == maxWidth)
  {
    var scale := Scale(t, maxWidth, maxHeight);
    ScaleFits(t, maxWidth, maxHeight);
    hide Scale, Resized, Within, Fills, IsPositive;
    ResizedFits(scale, t.clientWidth, maxWidth);
    ResizedFits(scale, t.clientHeight, maxHeight);
  }

  ghost predicate Within(scale: real, size: int, most: int) {
    scale * size as real <= most as real
  }

  ghost predicate Fills(scale: real, size: int, most: int) {
    scale * size as real == most as real
  }

  ghost predicate IsPositive(scale: real, size: int) {
    scale * size as real >= 0.0
  }

  lemma ResizedFits(scale: real, size: int, most: int)
    ensures Within(scale, size, most) ==> Resized(scale, size) <= most
    ensures Fills(scale, size, most) ==> Resized(scale, size) == most
    ensures IsPositive(scale, size) ==> Resized(scale, size) >= 0
  {
    TruncFits(scale * size as real, most);
  }

  lemma ScaleFits(t: Toplevel, maxWidth: int, maxHeight: int)
    requires t.clientWidth > 0 && t.clientHeight > 0 && maxHeight >= 0
    ensures var scale := Scale(t, maxWidth, maxHeight);
            && Within(scale, t.clientWidth, maxWidth) && Within(scale, t.clientHeight, maxHeight)
            && (maxWidth >= 0 ==> IsPositive(scale, t.clientWidth) && IsPositive(scale, t.clientHeight))
            && (maxWidth >= 0 ==> Fills(scale, t.clientWidth, maxWidth) || Fills(scale, t.clientHeight, maxHeight))
            && (maxWidth < 0 ==> Fills(scale, t.clientWidth, maxWidth))
  {
    hide *;
    var sx, sy := maxWidth as real / t.clientWidth as real, maxHeight as real / t.clientHeight as real;
    var scale := Scale(t, maxWidth, maxHeight);
    ScaleIs(t, maxWidth, maxHeight);
    QuotientTimes(maxWidth as real, t.clientWidth as real);
    QuotientTimes(maxHeight as real, t.clientHeight as real);
    QuotientSign(maxWidth as real, t.clientWidth as real);
    QuotientSign(maxHeight as real, t.clientHeight as real);
    FitsOneWay(scale, sx, t.clientWidth, maxWidth);
    FitsOneWay(scale, sy, t.clientHeight, maxHeight);
  }

  lemma ScaleIs(t: Toplevel, maxWidth: int, maxHeight: int)
    requires t.clientWidth > 0 && t.clientHeight > 0
    ensures var sx, sy := maxWidth as real / t.clientWidth as real, maxHeight as real / t.clientHeight as real;
            Scale(t, maxWidth, maxHeight) == if sy < sx then sy else sx
  {
  }

  lemma FitsOneWay(scale: real, s: real, size: int, most: int)
    requires size > 0 && s * size as real == most as real && scale <= s
    ensures Within(scale, size, most) && (scale == s ==> Fills(scale, size, most))
    ensures scale >= 0.0 ==> IsPositive(scale, size)
  {
    TimesPositive(scale, s, size as real);
    if scale >= 0.0 {
      TimesPositive(0.0, scale, size as real);
    }
  }

  lemma QuotientSign(a: real, c: real)
    requires c > 0.0
    ensures a / c >= 0.0 <==> a >= 0.0
  {
    QuotientTimes(a, c);
  }

  lemma TruncFits(r: real, n: int)
    ensures r <= n as real ==> Trunc(r) <= n
    ensures r == n as real ==> Trunc(r) == n
    ensures r >= 0.0 ==> Trunc(r) >= 0
  {
  }

  // ----- The layout as a function of the windows

  /** What the layout depends on; the source keeps these in fields. */
  datatype Screen = Screen(width: int, height: int, overviewHeight: int,
                           magnified: Option<nat>, createBrowserWidth: Option<int>) {

    ghost predicate Valid(ts: seq<Toplevel>) {
      && ts != []
      && width >= 0 && overviewHeight >= 0
      && (magnified.Some? ==> magnified.value < |ts|)
      && (createBrowserWidth.Some? ==> createBrowserWidth.value > 0)
      && forall i | 0 <= i < |ts| :: ts[i].clientWidth > 0 && ts[i].clientHeight > 0
    }

    function Create(): int {
      if createBrowserWidth.Some? then createBrowserWidth.value else 0
    }

    function MagnifiedWidth(ts: seq<Toplevel>): int
      requires Valid(ts)
    {
      if magnified.Some? then Scaled(ts[magnified.value], width, overviewHeight).overviewWidth else 0
    }

    /** The width that is left for the windows that are not magnified. */
    function TotalUnmagWidth(ts: seq<Toplevel>): int
      requires Valid(ts)
    {
      width - (|ts| + 1) * WINDOW_PADDING
      - (if createBrowserWidth.Some? then createBrowserWidth.value + WINDOW_PADDING else 0)
      - MagnifiedWidth(ts)
    }

    function NumUnmag(ts: seq<Toplevel>): nat
      requires Valid(ts)
    {
      if magnified.Some? then |ts| - 1 else |ts|
    }

    function MaxUnmagWidth(ts: seq<Toplevel>): int
      requires Valid(ts)
    {
      if NumUnmag(ts) != 0 then Quotient(TotalUnmagWidth(ts), NumUnmag(ts)) else 0
    }

    function MaxUnmagHeight(): int {
      Trunc(0.75 * overviewHeight as real)
    }

    function Sized(ts: seq<Toplevel>, i: nat): Toplevel
      requires Valid(ts) && i < |ts|
    {
      if magnified == Some(i) then Scaled(ts[i], width, overviewHeight)
      else Scaled(ts[i], MaxUnmagWidth(ts), MaxUnmagHeight())
    }

    /** The summed width of the first n windows. */
    function SumWidths(ts: seq<Toplevel>, n: nat): int
      requires Valid(ts) && n <= |ts|
    {
      if n == 0 then 0 else SumWidths(ts, n - 1) + Sized(ts, n - 1).overviewWidth
    }

    function TotalWindowWidth(ts: seq<Toplevel>): int
      requires Valid(ts)
    {
      SumWidths(ts, |ts|) + Create()
    }

    /** Whether the source warns that the windows are too wide for the screen. */
    predicate Overflows(ts: seq<Toplevel>)
      requires Valid(ts)
    {
      width - TotalWindowWidth(ts) < 0
    }

    function TotalPadding(ts: seq<Toplevel>): int
      requires Valid(ts)
    {
      if Overflows(ts) then 0 else width - TotalWindowWidth(ts)
    }

    function Gaps(ts: seq<Toplevel>): nat {
      if createBrowserWidth.Some? then |ts| + 2 else |ts| + 1
    }

    function Padding(ts: seq<Toplevel>): real
      requires Valid(ts)
    {
      TotalPadding(ts) as real / Gaps(ts) as real
    }

    function RunningWidth(ts: seq<Toplevel>, n: nat): real
      requires Valid(ts) && n <= |ts|
    {
      if n == 0 then 0.0
      else RunningWidth(ts, n - 1) + (Padding(ts) + Sized(ts, n - 1).overviewWidth as real)
    }

    function X(ts: seq<Toplevel>, i: nat): int
      requires Valid(ts) && i < |ts|
    {
      Round(RunningWidth(ts, i) + Padding(ts))
    }

    function Width(ts: seq<Toplevel>, i: nat): int
      requires Valid(ts) && i < |ts|
    {
      Sized(ts, i).overviewWidth
    }

    function Placed(ts: seq<Toplevel>, i: nat): Toplevel
      requires Valid(ts) && i < |ts|
    {
      Sized(ts, i).(overviewX := X(ts, i), overviewY := height - Sized(ts, i).overviewHeight)
    }

    lemma RunningWidthStart(ts: seq<Toplevel>)
      requires Valid(ts)
      ensures RunningWidth(ts, 0) == 0.0
    {
    }

    lemma PlacedIs(ts: seq<Toplevel>, i: nat)
      requires Valid(ts) && i < |ts|
      ensures Placed(ts, i) == Sized(ts, i).(overviewX := Round(RunningWidth(ts, i) + Padding(ts)),
                                             overviewY := height - Sized(ts, i).overviewHeight)
      ensures RunningWidth(ts, i + 1) == RunningWidth(ts, i) + (Padding(ts) + Sized(ts, i).overviewWidth as real)
    {
    }

    /** The left edge of the create-browser window, or of the margin if there is none. */
    function RightBound(): int {
      if createBrowserWidth.Some? then width - createBrowserWidth.value - WINDOW_PADDING else width
    }

    // ----- Widths

    /** How many of the first n windows are not magnified. */
    function Unmagnified(n: nat): nat {
      if magnified.Some? && magnified.value < n then n - 1 else n
    }

    lemma WidthAtMost(ts: seq<Toplevel>, i: nat)
      requires Valid(ts) && i < |ts|
      ensures Width(ts, i) <= if magnified == Some(i) then MagnifiedWidth(ts) else MaxUnmagWidth(ts)
      ensures TotalUnmagWidth(ts) >= 0 ==> Width(ts, i) >= 0
    {
      if NumUnmag(ts) != 0 {
        QuotientSigned(TotalUnmagWidth(ts), NumUnmag(ts));
      }
      hide Scaled, TotalUnmagWidth, Quotient;
      ScaledFits(ts[i], width, overviewHeight);
      ScaledFits(ts[i], MaxUnmagWidth(ts), MaxUnmagHeight());
    }

    lemma {:induction false} SumAtMost(ts: seq<Toplevel>, n: nat)
      requires Valid(ts) && n <= |ts|
      ensures SumWidths(ts, n) <= Unmagnified(n) * MaxUnmagWidth(ts)
                                  + (if magnified.Some? && magnified.value < n then MagnifiedWidth(ts) else 0)
    {
      if n > 0 {
        hide MaxUnmagWidth, MagnifiedWidth, Sized;
        SumAtMost(ts, n - 1);
        WidthAtMost(ts, n - 1);
        assert SumWidths(ts, n) == SumWidths(ts, n - 1) + Width(ts, n - 1);
        assert Unmagnified(n) == Unmagnified(n - 1) + (if magnified == Some(n - 1) then 0 else 1);
        hide *;
        AddWidth(SumWidths(ts, n - 1), Width(ts, n - 1), Unmagnified(n - 1), MaxUnmagWidth(ts),
                 if magnified.Some? && magnified.value < n - 1 then MagnifiedWidth(ts) else 0);
      }
    }

    /** The windows take at most the width that was set aside for them, or, if that is negative,
        less than one pixel each more than that. */
    lemma WidthsAllotted(ts: seq<Toplevel>)
      requires Valid(ts)
      ensures var total := TotalUnmagWidth(ts);
              SumWidths(ts, |ts|) - MagnifiedWidth(ts)
              <= if NumUnmag(ts) == 0 then 0 else if total >= 0 then total else total + NumUnmag(ts) - 1
    {
      SumAtMost(ts, |ts|);
      hide TotalUnmagWidth, MagnifiedWidth, SumWidths;
      if NumUnmag(ts) != 0 {
        QuotientBounds(TotalUnmagWidth(ts), NumUnmag(ts));
      }
    }

    /** The warning is reached exactly if a single window is shown magnified beside the
        create-browser window and the two are too wide: room is left for padding in all other
        cases, even if the windows then get no width at all. */
    lemma OverflowsExactly(ts: seq<Toplevel>)
      requires Valid(ts)
      ensures Overflows(ts) <==> |ts| == 1 && magnified.Some? && MagnifiedWidth(ts) + Create() > width
    {
      WidthsAllotted(ts);
      if magnified.Some? {
        ScaledFits(ts[magnified.value], width, overviewHeight);
      }
      if |ts| == 1 && magnified.Some? {
        assert SumWidths(ts, 1) == SumWidths(ts, 0) + MagnifiedWidth(ts);
      }
    }

    // ----- Positions

    lemma PaddingIsEnough(ts: seq<Toplevel>)
      requires Valid(ts) && TotalUnmagWidth(ts) >= 0
      ensures !Overflows(ts)
      ensures TotalPadding(ts) >= Gaps(ts) * WINDOW_PADDING
      ensures Padding(ts) >= WINDOW_PADDING as real
    {
      WidthsAllotted(ts);
      var room := TotalPadding(ts);
      assert room >= Gaps(ts) * WINDOW_PADDING by {
        hide MagnifiedWidth, SumWidths;
      }
      hide *;
      DivideAtLeast(ts, room);
    }

    lemma DivideAtLeast(ts: seq<Toplevel>, room: int)
      requires Valid(ts) && room == TotalPadding(ts) && room >= Gaps(ts) * WINDOW_PADDING
      ensures Padding(ts) >= WINDOW_PADDING as real
    {
      QuotientAtLeast(room as real, Gaps(ts) as real, 10.0);
    }

    lemma {:induction false} RunningWidthIs(ts: seq<Toplevel>, n: nat)
      requires Valid(ts) && n <= |ts|
      ensures RunningWidth(ts, n) == Times(n, Padding(ts)) + SumWidths(ts, n) as real
    {
      if n > 0 {
        hide Padding, Sized;
        RunningWidthIs(ts, n - 1);
      }
    }

    /** The windows and the gaps between them use up the width. */
    lemma RunningWidthAtEnd(ts: seq<Toplevel>)
      requires Valid(ts) && !Overflows(ts)
      ensures var p := Padding(ts);
              RunningWidth(ts, |ts|) + (if createBrowserWidth.Some? then p + p else p) + Create() as real == width as real
    {
      RunningWidthIs(ts, |ts|);
      TimesQuotient(TotalPadding(ts) as real, Gaps(ts));
      assert Padding(ts) == TotalPadding(ts) as real / Gaps(ts) as real;
      assert TotalPadding(ts) == width - SumWidths(ts, |ts|) - Create();
      var n, p := |ts|, Padding(ts);
      hide RunningWidth, SumWidths, Padding, TotalPadding, Sized;
      assert Times(n + 1, p) == Times(n, p) + p && Times(n + 2, p) == Times(n + 1, p) + p;
    }

    /** Neighbours are as far apart as the padding says, to within rounding, and at least
        WINDOW_PADDING if the padding is. */
    lemma NeighbourGap(ts: seq<Toplevel>, i: nat)
      requires Valid(ts) && i + 1 < |ts| && TotalUnmagWidth(ts) >= 0
      ensures var gap := X(ts, i + 1) - (X(ts, i) + Width(ts, i));
              && gap >= WINDOW_PADDING
              && Padding(ts) - 1.0 < gap as real < Padding(ts) + 1.0
    {
      PaddingIsEnough(ts);
      RunningNonNegative(ts, i);
      WidthAtMost(ts, i);
      var r, p, w := RunningWidth(ts, i), Padding(ts), Width(ts, i);
      assert RunningWidth(ts, i + 1) == r + (p + w as real);
      hide *;
      assert X(ts, i) == Round(r + p) && X(ts, i + 1) == Round(r + (p + w as real) + p) by {
        PositionIs(ts, i);
        PositionIs(ts, i + 1);
      }
      RoundedGap(r + p, w, p);
      assert r + (p + w as real) + p == r + p + w as real + p;
    }

    lemma PositionIs(ts: seq<Toplevel>, i: nat)
      requires Valid(ts) && i < |ts|
      ensures X(ts, i) == Round(RunningWidth(ts, i) + Padding(ts))
    {
    }

    lemma {:induction false} RunningNonNegative(ts: seq<Toplevel>, n: nat)
      requires Valid(ts) && n <= |ts| && TotalUnmagWidth(ts) >= 0
      ensures RunningWidth(ts, n) >= 0.0
    {
      if n > 0 {
        RunningNonNegative(ts, n - 1);
        PaddingIsEnough(ts);
        WidthAtMost(ts, n - 1);
        hide TotalUnmagWidth, Padding;
      }
    }

    lemma OuterMargins(ts: seq<Toplevel>)
      requires Valid(ts) && TotalUnmagWidth(ts) >= 0
      ensures X(ts, 0) >= WINDOW_PADDING
      ensures X(ts, |ts| - 1) + Width(ts, |ts| - 1) + WINDOW_PADDING <= RightBound()
    {
      PaddingIsEnough(ts);
      var last := |ts| - 1;
      var r, p, w := RunningWidth(ts, last), Padding(ts), Width(ts, last);
      assert RunningWidth(ts, |ts|) == r + (p + w as real);
      assert RunningWidth(ts, 0) == 0.0;
      RunningWidthAtEnd(ts);
      RunningNonNegative(ts, last);
      PositionIs(ts, 0);
      PositionIs(ts, last);
      hide X, Width, RunningWidth, Padding, TotalUnmagWidth;
    }

    lemma {:induction false} InOrder(ts: seq<Toplevel>, i: nat, j: nat)
      requires Valid(ts) && i < j < |ts| && TotalUnmagWidth(ts) >= 0
      ensures X(ts, i) + Width(ts, i) + WINDOW_PADDING <= X(ts, j)
    {
      hide X, Width, TotalUnmagWidth;
      NeighbourGap(ts, j - 1);
      if i < j - 1 {
        InOrder(ts, i, j - 1);
        WidthAtMost(ts, j - 1);
      }
    }

    /** No warning; the windows have room, and are at least WINDOW_PADDING apart from each other,
        from both sides of the screen and from the create-browser window. */
    ghost predicate Fits(ts: seq<Toplevel>)
      requires Valid(ts)
    {
      && !Overflows(ts)
      && (forall i, j | 0 <= i < j < |ts| :: Apart(ts, i, j))
      && forall i | 0 <= i < |ts| :: Inside(ts, i)
    }

    ghost predicate Apart(ts: seq<Toplevel>, i: nat, j: nat)
      requires Valid(ts) && i < |ts| && j < |ts|
    {
      X(ts, i) + Width(ts, i) + WINDOW_PADDING <= X(ts, j)
    }

    ghost predicate Inside(ts: seq<Toplevel>, i: nat)
      requires Valid(ts) && i < |ts|
    {
      && WINDOW_PADDING <= X(ts, i) && 0 <= Width(ts, i)
      && X(ts, i) + Width(ts, i) + WINDOW_PADDING <= RightBound() <= width
    }

    /** The box that a window is scaled into: all of the overview area if it is magnified, else its
        share of the width and three quarters of the height. */
    ghost predicate IsBox(ts: seq<Toplevel>, i: nat, maxWidth: int, maxHeight: int)
      requires Valid(ts) && i < |ts|
    {
      if magnified == Some(i) then maxWidth == width && maxHeight == overviewHeight
      else
        && 4 * maxHeight <= 3 * overviewHeight < 4 * maxHeight + 4
        && var total, n := TotalUnmagWidth(ts), |ts| - if magnified.Some? then 1 else 0;
        && n > 0
        && (total >= 0 ==> n * maxWidth <= total < n * maxWidth + n)
        && (total < 0 ==> n * maxWidth - n < total <= n * maxWidth)
    }

    /** Every window keeps its proportions, to within the fraction of a pixel; its scale is the
        largest at which it fits its box; it stands on the lower edge of the screen, and one gap
        right of what is before it. */
    lemma PlacedMeaning(ts: seq<Toplevel>, i: nat) returns (maxWidth: int, maxHeight: int)
      requires Valid(ts) && i < |ts|
      ensures IsBox(ts, i, maxWidth, maxHeight)
      ensures var t := Placed(ts, i);
              var scale, cw, ch := t.overviewScale, ts[i].clientWidth, ts[i].clientHeight;
              && SizedBy(scale, cw, t.overviewWidth) && SizedBy(scale, ch, t.overviewHeight)
              && Within(scale, cw, maxWidth) && Within(scale, ch, maxHeight)
              && (maxWidth >= 0 ==> Fills(scale, cw, maxWidth) || Fills(scale, ch, maxHeight))
              && (maxWidth < 0 ==> Fills(scale, cw, maxWidth))
              && t.overviewY + t.overviewHeight == height && Rounds(RunningWidth(ts, i) + Padding(ts), t.overviewX)
              && t.clientWidth == cw && t.clientHeight == ch
    {
      RoundRounds(RunningWidth(ts, i) + Padding(ts));
      hide Valid, Sized, Scale, Resized, TotalUnmagWidth, X, Within, Fills, SizedBy, IsBox, IsPositive, Round;
      hide Rounds, RunningWidth, Padding;
      maxWidth, maxHeight := BoxOf(ts, i);
      ScaleFits(ts[i], maxWidth, maxHeight);
      var scale := Scale(ts[i], maxWidth, maxHeight);
      ResizedIs(scale, ts[i].clientWidth);
      ResizedIs(scale, ts[i].clientHeight);
      PlacedIs(ts, i);
    }

    lemma BoxOf(ts: seq<Toplevel>, i: nat) returns (maxWidth: int, maxHeight: int)
      requires Valid(ts) && i < |ts|
      ensures IsBox(ts, i, maxWidth, maxHeight) && maxHeight >= 0
      ensures ts[i].clientWidth > 0 && ts[i].clientHeight > 0 && Sized(ts, i) == Scaled(ts[i], maxWidth, maxHeight)
    {
      hide TotalUnmagWidth, Scaled;
      if magnified == Some(i) {
        maxWidth, maxHeight := width, overviewHeight;
      } else {
        maxWidth, maxHeight := MaxUnmagWidth(ts), MaxUnmagHeight();
        hide Quotient;
        QuotientTruncates(TotalUnmagWidth(ts), NumUnmag(ts));
      }
    }

    /** The windows fit exactly if the width set aside for them is not negative. */
    lemma LayoutFits(ts: seq<Toplevel>)
      requires Valid(ts)
      ensures Fits(ts) <==> TotalUnmagWidth(ts) >= 0
    {
      hide Fits, TotalUnmagWidth;
      if TotalUnmagWidth(ts) >= 0 {
        RoomMakesFit(ts);
      } else if Fits(ts) {
        FitNeedsRoom(ts);
      }
    }

    lemma RoomMakesFit(ts: seq<Toplevel>)
      requires Valid(ts) && TotalUnmagWidth(ts) >= 0
      ensures Fits(ts)
    {
      hide X, Width, TotalUnmagWidth, Overflows;
      PaddingIsEnough(ts);
      OuterMargins(ts);
      forall i, j | 0 <= i < j < |ts|
        ensures Apart(ts, i, j)
      {
        InOrder(ts, i, j);
      }
      forall i | 0 <= i < |ts|
        ensures Inside(ts, i)
      {
        WidthAtMost(ts, i);
        WidthAtMost(ts, 0);
        WidthAtMost(ts, |ts| - 1);
        if i > 0 {
          InOrder(ts, 0, i);
        }
        if i < |ts| - 1 {
          InOrder(ts, i, |ts| - 1);
        }
      }
    }

    lemma FitNeedsRoom(ts: seq<Toplevel>)
      requires Valid(ts) && Fits(ts)
      ensures TotalUnmagWidth(ts) >= 0
    {
      hide X, Width, Overflows, Scaled, SumWidths;
      var n := |ts|;
      SpaceUsed(ts, n);
      SumAtLeast(ts, n);
      assert Inside(ts, n - 1);
    }

    /** The first n windows and their gaps end where the n-th window does, or before. */
    lemma {:induction false} SpaceUsed(ts: seq<Toplevel>, n: nat)
      requires Valid(ts) && Fits(ts) && 0 < n <= |ts|
      ensures SumWidths(ts, n) + n * WINDOW_PADDING <= X(ts, n - 1) + Width(ts, n - 1)
    {
      hide X, Sized, Overflows;
      assert Inside(ts, n - 1) && SumWidths(ts, n) == SumWidths(ts, n - 1) + Width(ts, n - 1);
      if n > 1 {
        SpaceUsed(ts, n - 1);
        assert Apart(ts, n - 2, n - 1);
      } else {
        assert SumWidths(ts, 0) == 0;
      }
    }

    lemma {:induction false} SumAtLeast(ts: seq<Toplevel>, n: nat)
      requires Valid(ts) && Fits(ts) && n <= |ts|
      ensures SumWidths(ts, n) >= if magnified.Some? && magnified.value < n then MagnifiedWidth(ts) else 0
    {
      if n > 0 {
        hide X, Overflows, Scaled;
        SumAtLeast(ts, n - 1);
        assert Inside(ts, n - 1);
        assert magnified == Some(n - 1) ==> Width(ts, n - 1) == MagnifiedWidth(ts);
        hide Sized, MagnifiedWidth;
      }
    }

    /** Exactly if the width is negative by at least a pixel for each window, the windows that
        are not magnified come out with negative widths. */
    lemma WidthsNegativeExactly(ts: seq<Toplevel>, i: nat)
      requires Valid(ts) && i < |ts| && magnified != Some(i)
      ensures Width(ts, i) < 0 <==> TotalUnmagWidth(ts) + NumUnmag(ts) <= 0
    {
      QuotientSigned(TotalUnmagWidth(ts), NumUnmag(ts));
      hide TotalUnmagWidth, Quotient, Scaled;
      ScaledFits(ts[i], MaxUnmagWidth(ts), MaxUnmagHeight());
    }
  }

  // ----- Arithmetic

  lemma QuotientBounds(a: int, b: int)
    requires b > 0
    ensures a >= 0 ==> b * Quotient(a, b) <= a
    ensures a < 0 ==> b * Quotient(a, b) <= a + b - 1
  {
  }

  lemma QuotientSigned(a: int, b: int)
    requires b > 0
    ensures Quotient(a, b) < 0 <==> a <= -b
  {
  }

  lemma QuotientAtLeast(a: real, b: real, c: real)
    requires b > 0.0 && a >= b * c
    ensures a / b >= c
  {
    QuotientTimes(a, b);
    if a / b < c {
      TimesLess(a / b, c, b);
    }
  }

  lemma TimesLess(a: real, b: real, c: real)
    requires a < b && c > 0.0
    ensures a * c < b * c
  {
  }

  lemma AddWidth(sum: int, w: int, n: nat, most: int, rest: int)
    requires sum <= n * most + rest
    ensures w <= most ==> sum + w <= (n + 1) * most + rest
  {
    assert (n + 1) * most == n * most + most;
  }

  function Times(n: nat, p: real): real {
    if n == 0 then 0.0 else Times(n - 1, p) + p
  }

  lemma {:induction false} TimesIs(n: nat, p: real)
    ensures Times(n, p) == n as real * p
  {
    if n > 0 {
      TimesIs(n - 1, p);
      assert n as real * p == (n - 1) as real * p + p;
    }
  }

  lemma TimesQuotient(a: real, n: nat)
    requires n > 0
    ensures Times(n, a / n as real) == a
  {
    TimesIs(n, a / n as real);
    QuotientTimes(a, n as real);
  }

  lemma RoundedGap(a: real, w: int, p: real)
    requires a >= 0.0 && w >= 0 && p >= 0.0
    ensures var gap := Round(a + w as real + p) - (Round(a) + w);
            && p - 1.0 < gap as real < p + 1.0
            && (p >= WINDOW_PADDING as real ==> gap >= WINDOW_PADDING)
  {
  }

  // ----- The class

  class OverviewPositions {
    const toplevels: array<Toplevel>
    var magnified: Option<nat>
    var createBrowserWidth: Option<int>
    var width: int
    var height: int
    var overviewHeight: int

    constructor (toplevels: array<Toplevel>, magnified: Option<nat>, createBrowserWidth: Option<int>,
                 width: int, height: int)
      ensures this.toplevels == toplevels && this.magnified == magnified
      ensures this.createBrowserWidth == createBrowserWidth && this.width == width && this.height == height
      ensures overviewHeight == OverviewHeight(height)
    {
      this.toplevels, this.magnified, this.createBrowserWidth := toplevels, magnified, createBrowserWidth;
      this.width, this.height, this.overviewHeight := width, height, OverviewHeight(height);
    }

    function Abs(): Screen
      reads this
    {
      Screen(width, height, overviewHeight, magnified, createBrowserWidth)
    }

    method UpdateOverviewScaling(i: nat, maxWidth: int, maxHeight: int)
      requires i < toplevels.Length && toplevels[i].clientWidth > 0 && toplevels[i].clientHeight > 0
      modifies toplevels
      ensures toplevels[..] == old(toplevels[..])[i := Scaled(old(toplevels[i]), maxWidth, maxHeight)]
    {
      var t := toplevels[i];
      var scaleX := maxWidth as real / t.clientWidth as real;
      var scaleY := maxHeight as real / t.clientHeight as real;
      var scale := Min(scaleX, scaleY);
      assert scale == Scale(t, maxWidth, maxHeight);
      var w, h := Resized(scale, t.clientWidth), Resized(scale, t.clientHeight);
      var scaled := t.(overviewWidth := w, overviewHeight := h, overviewScale := scale);
      assert scaled == Scaled(t, maxWidth, maxHeight);
      hide *;
      toplevels[i] := scaled;
    }

    /** Every window gets the size and the position that the layout says; warned tells whether the
        source logs its warning. */
    method CalculatePositionsForOverviewMode() returns (warned: bool)
      requires toplevels.Length > 0 ==> Abs().Valid(toplevels[..])
      modifies toplevels
      ensures toplevels.Length == 0 ==> !warned
      ensures toplevels.Length > 0 ==>
                && var screen := Screen(width, height, overviewHeight, magnified, createBrowserWidth);
                && warned == screen.Overflows(old(toplevels[..]))
                && forall i | 0 <= i < toplevels.Length :: toplevels[i] == screen.Placed(old(toplevels[..]), i)
    {
      warned := false;
      if toplevels.Length == 0 {
        return;
      }
      ghost var g, ts := Abs(), toplevels[..];
      ScaleWindows();
      var totalWindowWidth := SumWindows(g, ts);
      var totalPadding := width - totalWindowWidth;
      if totalPadding < 0 {
        warned := true;
        totalPadding := 0;
      }
      var n := toplevels.Length;
      var padding := totalPadding as real / (if createBrowserWidth.Some? then n + 2 else n + 1) as real;
      assert padding == g.Padding(ts);
      PlaceWindows(g, ts, padding);
    }

    /** First the magnified window gets its size, then the others share what is left. */
    method ScaleWindows()
      requires Abs().Valid(toplevels[..])
      modifies toplevels
      ensures forall i | 0 <= i < toplevels.Length :: toplevels[i] == Abs().Sized(old(toplevels[..]), i)
    {
      ghost var g, ts := Abs(), toplevels[..];
      var n := toplevels.Length;
      var numUnmagWindows: nat := n;
      var totalUnmagWidth := width - (n + 1) * WINDOW_PADDING;
      if createBrowserWidth.Some? {
        totalUnmagWidth := totalUnmagWidth - (createBrowserWidth.value + WINDOW_PADDING);
      }
      if magnified.Some? {
        UpdateOverviewScaling(magnified.value, width, overviewHeight);
        totalUnmagWidth := totalUnmagWidth - toplevels[magnified.value].overviewWidth;
        numUnmagWindows := numUnmagWindows - 1;
      }
      var maxUnmagWidth := if numUnmagWindows != 0 then Quotient(totalUnmagWidth, numUnmagWindows) else 0;
      var maxUnmagHeight := Trunc(0.75 * overviewHeight as real);
      assert maxUnmagWidth == g.MaxUnmagWidth(ts) && maxUnmagHeight == g.MaxUnmagHeight();
      hide Screen.MaxUnmagWidth, Screen.MaxUnmagHeight, Scaled;
      for i := 0 to n
        invariant forall k | 0 <= k < i :: toplevels[k] == g.Sized(ts, k)
        invariant forall k | i <= k < n :: toplevels[k] == if magnified == Some(k) then g.Sized(ts, k) else ts[k]
      {
        if magnified != Some(i) {
          UpdateOverviewScaling(i, maxUnmagWidth, maxUnmagHeight);
        }
      }
    }

    method SumWindows(ghost g: Screen, ghost ts: seq<Toplevel>) returns (totalWindowWidth: int)
      requires g == Abs() && g.Valid(ts) && |ts| == toplevels.Length
      requires forall i | 0 <= i < toplevels.Length :: toplevels[i] == g.Sized(ts, i)
      ensures totalWindowWidth == g.TotalWindowWidth(ts)
    {
      hide Screen.Sized;
      totalWindowWidth := 0;
      for i := 0 to toplevels.Length
        invariant totalWindowWidth == g.SumWidths(ts, i)
      {
        totalWindowWidth := totalWindowWidth + toplevels[i].overviewWidth;
      }
      if createBrowserWidth.Some? {
        totalWindowWidth := totalWindowWidth + createBrowserWidth.value;
      }
    }

    lemma AbsHeight()
      ensures Abs().height == height
    {
    }

    method PlaceWindows(ghost g: Screen, ghost ts: seq<Toplevel>, padding: real)
      requires g == Abs() && g.Valid(ts) && |ts| == toplevels.Length && padding == g.Padding(ts)
      requires forall i | 0 <= i < toplevels.Length :: toplevels[i] == g.Sized(ts, i)
      modifies toplevels
      ensures forall i | 0 <= i < toplevels.Length :: toplevels[i] == g.Placed(ts, i)
    {
      hide *;
      var runningWidth := 0.0;
      assert runningWidth == g.RunningWidth(ts, 0) by {
        g.RunningWidthStart(ts);
      }
      for i := 0 to toplevels.Length
        invariant runningWidth == g.RunningWidth(ts, i)
        invariant forall k | 0 <= k < i :: toplevels[k] == g.Placed(ts, k)
        invariant forall k | i <= k < toplevels.Length :: toplevels[k] == g.Sized(ts, k)
      {
        var overviewX := Round(runningWidth + padding);
        var overviewY := height - toplevels[i].overviewHeight;
        assert height == g.height by {
          AbsHeight();
        }
        g.PlacedIs(ts, i);
        toplevels[i] := toplevels[i].(overviewX := overviewX, overviewY := overviewY);
        runningWidth := runningWidth + (padding + toplevels[i].overviewWidth as real);
      }
    }
  }
}
