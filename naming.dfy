/**
 * The name planner: the destination file name is the source name, the fixed
 * mask, or the capture timestamp in name form, made unique within the run by
 * a per-base-name use counter.
 */
module Naming {
  import opened Wrappers
  import Decimal
  import Timestamp

  /** How many times each timestamp-derived base name has been used so far in the run. */
  type Counts = map<string, nat>

  /** Uses of `base` so far: its count, or 0 before the first. */
  function Uses(counts: Counts, base: string): nat {
    if base in counts then counts[base] else 0
  }

  /** The name the k-th use of a base name receives: no suffix for the first, "-k" after. */
  function NameFor(base: string, k: nat): string {
    if k <= 1 then base + ".jpg" else base + "-" + Decimal.Show(k) + ".jpg"
  }

  datatype Suffixed = Suffixed(name: string, counts: Counts)

  /**
   * Counting one more use of `base` and naming it: the count of `base` goes up
   * by one (starting at 1), no other count changes, and the name carries the
   * new count as its suffix unless it is the first use.
   */
  function Next(counts: Counts, base: string): (r: Suffixed)
    ensures r.counts == counts[base := Uses(counts, base) + 1]
    ensures base !in counts ==> r.name == base + ".jpg"
    ensures (base !in counts || counts[base] >= 1) ==> r.name == NameFor(base, r.counts[base])
  {
    if base in counts then
      var c := counts[base := counts[base] + 1];
      Suffixed(base + "-" + Decimal.Show(c[base]) + ".jpg", c)
    else
      Suffixed(base + ".jpg", counts[base := 1])
  }

  /** The counter of a run: its keys are base names of one fixed width, each used at least once. */
  predicate WellFormed(counts: Counts) {
    forall b :: b in counts ==> |b| == Timestamp.Width && counts[b] >= 1
  }

  /**
   * The use number a name carries after a base of the fixed width: 1 for no
   * suffix, k for "-k", and 0 for anything else.
   */
  function UseOf(n: string): nat {
    if |n| < Timestamp.Width + 4 then 0
    else if n[Timestamp.Width..] == ".jpg" then 1
    else if |n| >= Timestamp.Width + 6 && n[Timestamp.Width] == '-' && n[|n| - 4..] == ".jpg" &&
            Decimal.AllDigits(n[Timestamp.Width + 1..|n| - 4])
    then Decimal.Value(n[Timestamp.Width + 1..|n| - 4])
    else 0
  }

  /** A name can be taken apart again: the base is its fixed-width prefix, and the use number its suffix. */
  lemma {:induction false} UseOfNameFor(base: string, k: nat)
    requires |base| == Timestamp.Width && k >= 1
    ensures NameFor(base, k)[..Timestamp.Width] == base
    ensures UseOf(NameFor(base, k)) == k
  {
    var n := NameFor(base, k);
    var w := Timestamp.Width;
    assert n[..w] == base;
    if k > 1 {
      var d := Decimal.Show(k);
      assert n == base + "-" + d + ".jpg";
      assert n[w] == '-';
      assert n[w..] != ".jpg";
      assert n[|n| - 4..] == ".jpg";
      assert n[w + 1..|n| - 4] == d;
      Decimal.ValueOfShow(k);
    } else {
      assert n[w..] == ".jpg";
    }
  }

  /** No count goes down and no base name is forgotten. */
  predicate Grows(before: Counts, after: Counts) {
    forall b :: b in before ==> b in after && before[b] <= after[b]
  }

  /**
   * A name handed out between two states of the counter: its use number is
   * above the count its base had before and within the count it has after.
   */
  predicate Fresh(before: Counts, after: Counts, n: string) {
    |n| >= Timestamp.Width &&
    var base := n[..Timestamp.Width];
    base in after && Uses(before, base) < UseOf(n) <= after[base]
  }

  /** For base names of the fixed width, the name determines both the base and the use number. */
  lemma NameForInjective(b1: string, k1: nat, b2: string, k2: nat)
    requires |b1| == |b2| == Timestamp.Width && k1 >= 1 && k2 >= 1
    requires NameFor(b1, k1) == NameFor(b2, k2)
    ensures b1 == b2 && k1 == k2
  {
    UseOfNameFor(b1, k1);
    UseOfNameFor(b2, k2);
  }

  /**
   * In a well-formed counter, the next use of a base name of the fixed width
   * hands out a fresh name; the counter grows and stays well formed.
   */
  lemma NextFresh(counts: Counts, base: string)
    requires WellFormed(counts) && |base| == Timestamp.Width
    ensures var r := Next(counts, base);
      WellFormed(r.counts) && Grows(counts, r.counts) && Fresh(counts, r.counts, r.name)
  {
    var r := Next(counts, base);
    UseOfNameFor(base, r.counts[base]);
  }

  /** Names handed out in two successive stretches of a run never coincide. */
  lemma FreshApart(c0: Counts, c1: Counts, c2: Counts, m: string, n: string)
    requires Fresh(c0, c1, m) && Fresh(c1, c2, n)
    ensures m != n
  {
  }

  lemma FreshExtend(c0: Counts, c1: Counts, c2: Counts, n: string)
    requires Grows(c1, c2)
    ensures Fresh(c0, c1, n) ==> Fresh(c0, c2, n)
    ensures Grows(c0, c1) && Fresh(c1, c2, n) ==> Fresh(c0, c2, n)
  {
  }

  /** The second file with the same capture time gets the "-2" suffix. */
  lemma DuplicateExample()
    ensures Next(map[], "2024-01-01 10.00.00").name == "2024-01-01 10.00.00.jpg"
    ensures Next(Next(map[], "2024-01-01 10.00.00").counts, "2024-01-01 10.00.00").name
         == "2024-01-01 10.00.00-2.jpg"
  {
  }

  /** Python truthiness of the mask: an absent or empty mask does not replace the name. */
  predicate MaskActive(mask: Option<string>) {
    mask.Some? && mask.value != ""
  }

  /** Renaming is on and uses the capture timestamp rather than a mask. */
  predicate TimestampMode(rename: bool, mask: Option<string>) {
    rename && !MaskActive(mask)
  }

  /** What the name planner decides for one file. */
  datatype Plan =
    | Named(name: string, counts: Counts)
    | MissingDate
    | MeaninglessDate(value: string)
    | Unparsable(value: string)

  /** Lines 70-90 of the script for one file whose resize check passed. */
  function PlanName(rename: bool, mask: Option<string>, source: string, date: Option<string>, counts: Counts): (p: Plan)
    ensures !rename ==> p == Named(source, counts)
    ensures rename && MaskActive(mask) ==> p == Named(mask.value, counts)
    ensures !TimestampMode(rename, mask) ==> p.Named?
    ensures TimestampMode(rename, mask) ==>
              (p.MissingDate? <==> date.None?) &&
              (p.MeaninglessDate? <==> date.Some? && Timestamp.ZeroYear(date.value)) &&
              (p.Unparsable? <==> date.Some? && !Timestamp.ZeroYear(date.value) && !Timestamp.Valid(date.value))
    ensures TimestampMode(rename, mask) && p.Named? ==>
              date.Some? && Timestamp.Valid(date.value) &&
              var base := Timestamp.Reformat(date.value);
              p.counts == counts[base := Uses(counts, base) + 1] &&
              (WellFormed(counts) ==> p.name == NameFor(base, p.counts[base]))
  {
    if !rename then Named(source, counts)
    else if MaskActive(mask) then Named(mask.value, counts)
    else if date.None? then MissingDate
    else if Timestamp.ZeroYear(date.value) then MeaninglessDate(date.value)
    else if !Timestamp.Valid(date.value) then Unparsable(date.value)
    else
      var r := Next(counts, Timestamp.Reformat(date.value));
      Named(r.name, r.counts)
  }

  /** The sentinel year never yields a name, whatever the rest of the value. */
  lemma SentinelRejected(mask: Option<string>, source: string, counts: Counts)
    requires !MaskActive(mask)
    ensures PlanName(true, mask, source, Some("0000:01:01 00:00:00"), counts) == MeaninglessDate("0000:01:01 00:00:00")
  {
  }
}
