/** How `set_axis_limits` (src/element/dynamic_plot.rs) chooses the limits of
    each axis from a batch of plot commands, as a specification on values:
    the accumulator the source's loop carries, one step per command, and the
    final limit with its 3% widening and its (-1, 1) default. The loop itself
    is `PlotEngine.DynamicPlot.SetAxisLimits`. */
module AxisLimits {
  import opened Wrappers
  import opened Util
  import opened PlotCommands

  datatype Axis = X | Y

  /** The data a command offers for the axis: the `xs` or `ys` of a `Scatter`
      or a `Line`, nothing for any other command. */
  function Samples(c: PlotCommand, axis: Axis): (s: seq<F32>)
    ensures !(c.Scatter? || c.Line?) ==> s == []
  {
    match c
    case Scatter(xs, ys) => if axis == X then xs else ys
    case Line(xs, ys, _) => if axis == X then xs else ys
    case _ => []
  }

  /** Whether the command's data takes part in limit inference. */
  predicate Contributes(c: PlotCommand)
  {
    c.Scatter? || c.Line?
  }

  /** The source takes the finite minimum and maximum of both arrays of every
      `Scatter` and `Line` before it looks at anything else, so each of those
      arrays needs a finite value. */
  predicate Usable(c: PlotCommand)
  {
    Contributes(c) ==> HasFinite(Samples(c, X)) && HasFinite(Samples(c, Y))
  }

  predicate AllUsable(cmds: seq<PlotCommand>)
  {
    forall i :: 0 <= i < |cmds| ==> Usable(cmds[i])
  }

  /** Whether the command sets the axis's limit explicitly. */
  predicate IsSetLim(c: PlotCommand, axis: Axis)
  {
    if axis == X then c.SetXLim? else c.SetYLim?
  }

  /** What the loop carries for one axis: the limit so far and whether it was
      set explicitly. */
  datatype Acc = Acc(lim: Option<(real, real)>, explicit: bool)

  /** Every finite sample the command offers for the axis lies in `[lo, hi]`. */
  predicate SamplesWithin(c: PlotCommand, axis: Axis, lo: real, hi: real)
  {
    var s := Samples(c, axis);
    forall j :: 0 <= j < |s| && s[j].Finite? ==> lo <= s[j].value <= hi
  }

  /** The finite (minimum, maximum) of the command's data for the axis. */
  function LocalLimit(c: PlotCommand, axis: Axis): (l: (real, real))
    requires Contributes(c) && Usable(c)
    ensures Finite(l.0) in Samples(c, axis) && Finite(l.1) in Samples(c, axis)
    ensures l.0 <= l.1 && SamplesWithin(c, axis, l.0, l.1)
  {
    var s := Samples(c, axis);
    assert s[0] in s;
    (MinFinite(s).value, MaxFinite(s).value)
  }

  /** One turn of the loop for one axis: an explicit limit replaces the
      accumulator and marks it set; data widens an unset accumulator to take
      in the command's finite range; anything else leaves it alone. */
  function Step(acc: Acc, c: PlotCommand, axis: Axis): Acc
    requires Usable(c)
  {
    if IsSetLim(c, axis) then Acc(Some((c.low, c.high)), true)
    else if Contributes(c) && !acc.explicit then
      var local := LocalLimit(c, axis);
      match acc.lim
      case None => Acc(Some(local), false)
      case Some(l) => Acc(Some((Min(l.0, local.0), Max(l.1, local.1))), false)
    else acc
  }

  /** The accumulator after the whole batch. */
  function Accumulate(cmds: seq<PlotCommand>, axis: Axis): Acc
    requires AllUsable(cmds)
  {
    if |cmds| == 0 then Acc(None, false)
    else Step(Accumulate(cmds[..|cmds| - 1], axis), cmds[|cmds| - 1], axis)
  }

  /** The 3% widening of an inferred limit: each side moves out by 3% of the
      span. */
  function Widen(a: (real, real)): (w: (real, real))
    ensures a.0 <= a.1 ==> w.0 <= a.0 && a.1 <= w.1
    ensures a.0 <= a.1 ==> w.1 - w.0 == (a.1 - a.0) * 1.06
    ensures w.0 + w.1 == a.0 + a.1
    ensures a.0 == a.1 ==> w == a
  {
    var buffer := (if a.0 - a.1 >= 0.0 then a.0 - a.1 else a.1 - a.0) * 0.03;
    (a.0 - buffer, a.1 + buffer)
  }

  /** On an ordered limit the widening adds 3% of the span on each side. */
  lemma WidenOrdered(a: (real, real))
    requires a.0 <= a.1
    ensures Widen(a) == (a.0 - (a.1 - a.0) * 0.03, a.1 + (a.1 - a.0) * 0.03)
  {
  }

  /** The limit `set_axis_limits` stores for the axis. */
  function AxisLimit(cmds: seq<PlotCommand>, axis: Axis): (real, real)
    requires AllUsable(cmds)
  {
    var acc := Accumulate(cmds, axis);
    match acc.lim
    case None => (-1.0, 1.0)
    case Some(a) => if acc.explicit then a else Widen(a)
  }

  /** After an explicit limit, the accumulator holds it until the next one. */
  lemma {:induction false} SetLimHolds(cmds: seq<PlotCommand>, axis: Axis, k: nat, n: nat)
    requires AllUsable(cmds)
    requires k < n <= |cmds| && IsSetLim(cmds[k], axis)
    requires forall j :: k < j < n ==> !IsSetLim(cmds[j], axis)
    ensures AllUsable(cmds[..n])
    ensures Accumulate(cmds[..n], axis) == Acc(Some((cmds[k].low, cmds[k].high)), true)
  {
    var prefix := cmds[..n];
    assert AllUsable(prefix);
    assert prefix[..n - 1] == cmds[..n - 1];
    if n - 1 > k {
      SetLimHolds(cmds, axis, k, n - 1);
    }
  }

  /** The last explicit limit of the batch is the axis's limit, exactly and
      without widening, whatever data comes before or after it. */
  lemma ExplicitOverrides(cmds: seq<PlotCommand>, axis: Axis, k: nat)
    requires AllUsable(cmds)
    requires k < |cmds| && IsSetLim(cmds[k], axis)
    requires forall j :: k < j < |cmds| ==> !IsSetLim(cmds[j], axis)
    ensures AxisLimit(cmds, axis) == (cmds[k].low, cmds[k].high)
  {
    SetLimHolds(cmds, axis, k, |cmds|);
    assert cmds[..|cmds|] == cmds;
  }

  /** Every finite sample of the axis lies in `[lo, hi]`. */
  predicate Bounds(cmds: seq<PlotCommand>, axis: Axis, lo: real, hi: real)
  {
    forall i, j :: 0 <= i < |cmds| && 0 <= j < |Samples(cmds[i], axis)| && Samples(cmds[i], axis)[j].Finite? ==>
      lo <= Samples(cmds[i], axis)[j].value <= hi
  }

  /** `v` is one of the finite samples of the axis. */
  predicate Attained(cmds: seq<PlotCommand>, axis: Axis, v: real)
  {
    exists i, j :: 0 <= i < |cmds| && 0 <= j < |Samples(cmds[i], axis)| && Samples(cmds[i], axis)[j] == Finite(v)
  }

  /** A sample of a prefix of the batch is a sample of the batch. */
  lemma AttainedInPrefix(cmds: seq<PlotCommand>, n: nat, axis: Axis, v: real)
    requires n <= |cmds| && Attained(cmds[..n], axis, v)
    ensures Attained(cmds, axis, v)
  {
    var i, j :| 0 <= i < n && 0 <= j < |Samples(cmds[..n][i], axis)| && Samples(cmds[..n][i], axis)[j] == Finite(v);
    assert cmds[..n][i] == cmds[i];
  }

  /** A sample of the last command is a sample of the batch. */
  lemma AttainedInLast(cmds: seq<PlotCommand>, axis: Axis, v: real)
    requires |cmds| > 0 && Finite(v) in Samples(cmds[|cmds| - 1], axis)
    ensures Attained(cmds, axis, v)
  {
    var s := Samples(cmds[|cmds| - 1], axis);
    var j :| 0 <= j < |s| && s[j] == Finite(v);
  }

  /** Bounds of the prefix and of the last command bound the batch. */
  lemma BoundsExtend(cmds: seq<PlotCommand>, axis: Axis, lo: real, hi: real)
    requires |cmds| > 0 && Bounds(cmds[..|cmds| - 1], axis, lo, hi)
    requires SamplesWithin(cmds[|cmds| - 1], axis, lo, hi)
    ensures Bounds(cmds, axis, lo, hi)
  {
    var n := |cmds| - 1;
    forall i, j | 0 <= i < |cmds| && 0 <= j < |Samples(cmds[i], axis)| && Samples(cmds[i], axis)[j].Finite?
      ensures lo <= Samples(cmds[i], axis)[j].value <= hi
    {
      if i < n {
        assert cmds[..n][i] == cmds[i];
      }
    }
  }

  /** Bounds stay bounds when the interval grows. */
  lemma BoundsWeaken(cmds: seq<PlotCommand>, axis: Axis, lo: real, hi: real, lo2: real, hi2: real)
    requires Bounds(cmds, axis, lo, hi) && lo2 <= lo && hi <= hi2
    ensures Bounds(cmds, axis, lo2, hi2)
  {
  }

  /** Without an explicit limit, the accumulator is unset and empty exactly
      when no `Scatter` or `Line` is present. */
  lemma {:induction false} InferredUnset(cmds: seq<PlotCommand>, axis: Axis)
    requires AllUsable(cmds)
    requires forall i :: 0 <= i < |cmds| ==> !IsSetLim(cmds[i], axis)
    ensures !Accumulate(cmds, axis).explicit
    ensures Accumulate(cmds, axis).lim.None? <==> forall i :: 0 <= i < |cmds| ==> !Contributes(cmds[i])
  {
    if |cmds| > 0 {
      var n := |cmds| - 1;
      assert forall i :: 0 <= i < n ==> cmds[..n][i] == cmds[i];
      InferredUnset(cmds[..n], axis);
    }
  }

  /** The first command with data starts the inferred limit at its own
      range. */
  lemma RangeFirst(cmds: seq<PlotCommand>, axis: Axis, local: (real, real))
    requires |cmds| > 0
    requires Bounds(cmds[..|cmds| - 1], axis, local.0, local.1)
    requires var c := cmds[|cmds| - 1];
      local.0 <= local.1 && Finite(local.0) in Samples(c, axis) && Finite(local.1) in Samples(c, axis) &&
      SamplesWithin(c, axis, local.0, local.1)
    ensures Bounds(cmds, axis, local.0, local.1) && Attained(cmds, axis, local.0) && Attained(cmds, axis, local.1)
  {
    AttainedInLast(cmds, axis, local.0);
    AttainedInLast(cmds, axis, local.1);
    BoundsExtend(cmds, axis, local.0, local.1);
  }

  /** A later command with data stretches the inferred limit to take in its
      range. */
  lemma RangeMerge(cmds: seq<PlotCommand>, axis: Axis, p: (real, real), local: (real, real))
    requires |cmds| > 0
    requires var init := cmds[..|cmds| - 1];
      p.0 <= p.1 && Bounds(init, axis, p.0, p.1) && Attained(init, axis, p.0) && Attained(init, axis, p.1)
    requires var c := cmds[|cmds| - 1];
      local.0 <= local.1 && Finite(local.0) in Samples(c, axis) && Finite(local.1) in Samples(c, axis) &&
      SamplesWithin(c, axis, local.0, local.1)
    ensures var l := (Min(p.0, local.0), Max(p.1, local.1));
      l.0 <= l.1 && Bounds(cmds, axis, l.0, l.1) && Attained(cmds, axis, l.0) && Attained(cmds, axis, l.1)
  {
    var n := |cmds| - 1;
    var l := (Min(p.0, local.0), Max(p.1, local.1));
    BoundsWeaken(cmds[..n], axis, p.0, p.1, l.0, l.1);
    if p.0 <= local.0 { AttainedInPrefix(cmds, n, axis, l.0); } else { AttainedInLast(cmds, axis, l.0); }
    if p.1 >= local.1 { AttainedInPrefix(cmds, n, axis, l.1); } else { AttainedInLast(cmds, axis, l.1); }
    BoundsExtend(cmds, axis, l.0, l.1);
  }

  /** A command without data for the axis keeps the range and what it bounds. */
  lemma RangeCarry(cmds: seq<PlotCommand>, axis: Axis, l: (real, real))
    requires |cmds| > 0 && Samples(cmds[|cmds| - 1], axis) == []
    requires var init := cmds[..|cmds| - 1];
      Bounds(init, axis, l.0, l.1) && Attained(init, axis, l.0) && Attained(init, axis, l.1)
    ensures Bounds(cmds, axis, l.0, l.1) && Attained(cmds, axis, l.0) && Attained(cmds, axis, l.1)
  {
    AttainedInPrefix(cmds, |cmds| - 1, axis, l.0);
    AttainedInPrefix(cmds, |cmds| - 1, axis, l.1);
    BoundsExtend(cmds, axis, l.0, l.1);
  }

  /** Without an explicit limit, an inferred limit holds the least and the
      greatest finite sample of the axis over all `Scatter` and `Line`
      commands. */
  lemma {:induction false} InferredRange(cmds: seq<PlotCommand>, axis: Axis)
    requires AllUsable(cmds)
    requires forall i :: 0 <= i < |cmds| ==> !IsSetLim(cmds[i], axis)
    requires Accumulate(cmds, axis).lim.Some?
    ensures var l := Accumulate(cmds, axis).lim.value;
      l.0 <= l.1 && Bounds(cmds, axis, l.0, l.1) && Attained(cmds, axis, l.0) && Attained(cmds, axis, l.1)
  {
    var n := |cmds| - 1;
    var init, c := cmds[..n], cmds[n];
    assert forall i :: 0 <= i < n ==> init[i] == cmds[i];
    InferredUnset(init, axis);
    var before := Accumulate(init, axis);
    if Contributes(c) {
      var local := LocalLimit(c, axis);
      if before.lim.None? {
        assert Bounds(init, axis, local.0, local.1) by {
          assert forall i :: 0 <= i < n ==> Samples(init[i], axis) == [];
        }
        RangeFirst(cmds, axis, local);
      } else {
        InferredRange(init, axis);
        RangeMerge(cmds, axis, before.lim.value, local);
      }
    } else {
      InferredRange(init, axis);
      RangeCarry(cmds, axis, before.lim.value);
    }
  }

  /** An inferred, ordered accumulator is widened into the final limit. */
  lemma InferredWidened(cmds: seq<PlotCommand>, axis: Axis, lo: real, hi: real)
    requires AllUsable(cmds)
    requires Accumulate(cmds, axis) == Acc(Some((lo, hi)), false) && lo <= hi
    ensures AxisLimit(cmds, axis) == (lo - (hi - lo) * 0.03, hi + (hi - lo) * 0.03)
  {
    WidenOrdered((lo, hi));
  }

  /** Without an explicit limit and with data, the limit is the finite range
      of all `Scatter` and `Line` data of the axis, widened by 3% of its span
      on each side; every sample lies inside it. */
  lemma InferredAxisLimit(cmds: seq<PlotCommand>, axis: Axis) returns (lo: real, hi: real)
    requires AllUsable(cmds)
    requires forall i :: 0 <= i < |cmds| ==> !IsSetLim(cmds[i], axis)
    requires exists i :: 0 <= i < |cmds| && Contributes(cmds[i])
    ensures lo <= hi && Bounds(cmds, axis, lo, hi) && Attained(cmds, axis, lo) && Attained(cmds, axis, hi)
    ensures AxisLimit(cmds, axis) == (lo - (hi - lo) * 0.03, hi + (hi - lo) * 0.03)
  {
    assert !Accumulate(cmds, axis).explicit && Accumulate(cmds, axis).lim.Some? by {
      InferredUnset(cmds, axis);
    }
    var l := Accumulate(cmds, axis).lim.value;
    lo, hi := l.0, l.1;
    assert lo <= hi && Bounds(cmds, axis, lo, hi) && Attained(cmds, axis, lo) && Attained(cmds, axis, hi) by {
      InferredRange(cmds, axis);
    }
    InferredWidened(cmds, axis, lo, hi);
  }

  /** An inferred limit covers every finite sample of its axis. */
  lemma InferredLimitCovers(cmds: seq<PlotCommand>, axis: Axis)
    requires AllUsable(cmds)
    requires forall i :: 0 <= i < |cmds| ==> !IsSetLim(cmds[i], axis)
    ensures Bounds(cmds, axis, AxisLimit(cmds, axis).0, AxisLimit(cmds, axis).1)
  {
    if exists i :: 0 <= i < |cmds| && Contributes(cmds[i]) {
      var lo, hi := InferredAxisLimit(cmds, axis);
      var w := AxisLimit(cmds, axis);
      BoundsWeaken(cmds, axis, lo, hi, w.0, w.1);
    } else {
      InferredUnset(cmds, axis);
      assert forall i :: 0 <= i < |cmds| ==> Samples(cmds[i], axis) == [];
    }
  }

  /** Without an explicit limit and without `Scatter` or `Line` data, the
      limit is (-1, 1). */
  lemma NoDataDefault(cmds: seq<PlotCommand>, axis: Axis)
    requires AllUsable(cmds)
    requires forall i :: 0 <= i < |cmds| ==> !IsSetLim(cmds[i], axis) && !Contributes(cmds[i])
    ensures AxisLimit(cmds, axis) == (-1.0, 1.0)
  {
    InferredUnset(cmds, axis);
  }
}
