/**
 What the credit schedule's choice between merged and unmerged steps is based on: two thresholds and the groups and
 steps counted since the last switch.
 */
module MergeMeter {
  import opened Sums

  /** Seconds of a merged step, of an unmerged one, and of a switch between them. */
  datatype Costs = Costs(merge: real, unmerge: real, switch: real) {
    predicate Positive() { merge > 0.0 && unmerge > 0.0 && switch >= 0.0 }
  }

  datatype Meter = Meter(merged: bool, left: real, right: real, iters: nat, mergeCnt: nat, unmergeCnt: nat,
                         switches: nat, maxModel: int) {
    /** What the steps since the last switch took merged, or would have taken. */
    ghost function MergedTime(c: Costs): real {
      c.merge * iters as real + (if merged then c.switch else c.switch * switches as real)
    }

    /** What they took unmerged, or would have taken. */
    ghost function UnmergedTime(c: Costs): real { c.unmerge * iters as real + (if merged then 0.0 else c.switch) }

    ghost predicate MergedIsFaster(c: Costs) {
      Times(mergeCnt as real, UnmergedTime(c)) > Times(unmergeCnt as real, MergedTime(c))
    }

    ghost predicate UnmergedIsFaster(c: Costs) {
      Times(mergeCnt as real, UnmergedTime(c)) < Times(unmergeCnt as real, MergedTime(c))
    }

    /** Additive-increase, multiplicative-decrease of the present mode's threshold; the counts start again. */
    ghost function Adjusted(c: Costs): Meter {
      if iters == 0 then this
      else if merged then
        var next := if MergedIsFaster(c) && right - 0.05 > left then right - 0.05
                    else if UnmergedIsFaster(c) then right * 1.1 else right;
        Meter(merged, left, next, iters, 0, 0, 0, -1)
      else
        var next := if UnmergedIsFaster(c) && left + 0.05 < right then left + 0.05
                    else if MergedIsFaster(c) then left / 1.1 else left;
        Meter(merged, next, right, iters, 0, 0, 0, -1)
    }

    /** The groups a merged step served or would have served, and those an unmerged one. */
    ghost function Counted(batch: nat, fcfs: nat, most: nat): Meter {
      this.(mergeCnt := mergeCnt + (if batch < most then batch else most),
            unmergeCnt := unmergeCnt + (if fcfs < most then fcfs else most))
    }

    /** The model that would have been merged; another one than before is a switch that was saved. */
    ghost function Noted(best: int): Meter {
      this.(switches := switches + (if maxModel != best then 1 else 0), maxModel := best)
    }

    /** Another merged step. */
    ghost function Kept(): Meter { this.(iters := iters + 1) }

    /** The first step of a newly merged model. */
    ghost function Merging(c: Costs): Meter { Adjusted(c).(merged := true, iters := 1) }

    /** An unmerged step, the first after a merged one. */
    ghost function Unmerging(c: Costs): Meter {
      if merged then Adjusted(c).(merged := false, iters := 1) else this.(iters := iters + 1)
    }
  }

  /** The thresholds stay positive and apart, and none moves but that of the present mode, towards the faster mode. */
  lemma ThresholdsMove(x: Meter, c: Costs)
    requires 0.0 < x.left < x.right
    ensures var y := x.Adjusted(c);
      && 0.0 < y.left < y.right
      && (x.merged ==> y.left == x.left) && (!x.merged ==> y.right == x.right)
      && (x.MergedIsFaster(c) ==> y.left <= x.left && y.right <= x.right)
      && (x.UnmergedIsFaster(c) ==> y.left >= x.left && y.right >= x.right)
      && (!x.MergedIsFaster(c) && !x.UnmergedIsFaster(c) ==> y.left == x.left && y.right == x.right)
  {
    hide Times;
  }
}
