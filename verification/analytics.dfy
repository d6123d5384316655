/** The analytics overview (src/components/admin/Analytics.tsx): the
    per-status counts, the count created this month, the per-type tally and
    the bar widths. Widths are exact reals; the component's floating-point
    rounding is not modelled. */
module Analytics {
  import opened Common
  import opened Types

  /** The number of announcements with the given status. */
  function CountStatus(anns: seq<Announcement>, s: Status): (n: nat)
    ensures n <= |anns|
    ensures n == 0 <==> forall i :: 0 <= i < |anns| ==> anns[i].status != s
  {
    if anns == [] then 0
    else (if anns[0].status == s then 1 else 0) + CountStatus(anns[1..], s)
  }

  /** A status count is the length of the list filtered to that status. */
  lemma {:induction false} CountStatusIsFilter(anns: seq<Announcement>, s: Status)
    ensures CountStatus(anns, s) == |Filter(anns, (a: Announcement) => a.status == s)|
    decreases |anns|
  {
    if anns != [] {
      CountStatusIsFilter(anns[1..], s);
    }
  }

  /** The number of announcements of the given type. */
  function CountType(anns: seq<Announcement>, t: AnnType): (n: nat)
    ensures n <= |anns|
    ensures n == 0 <==> forall i :: 0 <= i < |anns| ==> anns[i].kind != t
  {
    if anns == [] then 0
    else (if anns[0].kind == t then 1 else 0) + CountType(anns[1..], t)
  }

  /** The six cards of the overview. */
  datatype Stats = Stats(total: nat, published: nat, scheduled: nat, drafts: nat, archived: nat, thisMonth: nat)

  /** The number of announcements created in the same calendar month as
      `now`. `monthOf` maps an instant to its (year, month) in the viewer's
      local time, which is `Date`'s business and is left abstract. */
  function CountThisMonth(anns: seq<Announcement>, now: int, monthOf: int -> int): (n: nat)
    ensures n <= |anns|
    ensures n == |anns| <==> forall i :: 0 <= i < |anns| ==> monthOf(anns[i].createdAt) == monthOf(now)
  {
    if anns == [] then 0
    else (if monthOf(anns[0].createdAt) == monthOf(now) then 1 else 0)
         + CountThisMonth(anns[1..], now, monthOf)
  }

  /** `stats`. */
  function StatsOf(anns: seq<Announcement>, now: int, monthOf: int -> int): (st: Stats)
    ensures st.total == |anns|
    ensures st.published + st.scheduled + st.drafts + st.archived == st.total
    ensures st.thisMonth <= st.total
    ensures st.published == CountStatus(anns, Published) && st.scheduled == CountStatus(anns, Scheduled)
    ensures st.drafts == CountStatus(anns, Draft) && st.archived == CountStatus(anns, Archived)
    ensures st.thisMonth == CountThisMonth(anns, now, monthOf)
  {
    StatusCountsSum(anns);
    Stats(|anns|, CountStatus(anns, Published), CountStatus(anns, Scheduled),
          CountStatus(anns, Draft), CountStatus(anns, Archived),
          CountThisMonth(anns, now, monthOf))
  }

  /** Every announcement has exactly one of the four statuses, so the four
      counts partition the list. */
  lemma {:induction false} StatusCountsSum(anns: seq<Announcement>)
    ensures CountStatus(anns, Published) + CountStatus(anns, Scheduled)
          + CountStatus(anns, Draft) + CountStatus(anns, Archived) == |anns|
    decreases |anns|
  {
    if anns != [] {
      StatusCountsSum(anns[1..]);
    }
  }

  /** Every announcement has exactly one of the four types. */
  lemma {:induction false} TypeCountsSum(anns: seq<Announcement>)
    ensures CountType(anns, Feature) + CountType(anns, Update)
          + CountType(anns, News) + CountType(anns, Bugfix) == |anns|
    decreases |anns|
  {
    if anns != [] {
      TypeCountsSum(anns[1..]);
    }
  }

  /** Counting the list with one more element at the end. */
  lemma {:induction false} CountTypeSnoc(anns: seq<Announcement>, x: Announcement, t: AnnType)
    ensures CountType(anns + [x], t) == CountType(anns, t) + (if x.kind == t then 1 else 0)
    decreases |anns|
  {
    if anns == [] {
      assert [x][1..] == [];
    } else {
      assert (anns + [x])[1..] == anns[1..] + [x];
      CountTypeSnoc(anns[1..], x, t);
    }
  }

  /** `typeStats`: a left-to-right reduction that adds one to the entry of
      each announcement's type, creating the entry at 1. */
  function TypeStats(anns: seq<Announcement>): map<AnnType, nat>
    decreases |anns|
  {
    if anns == [] then map[]
    else
      var acc := TypeStats(anns[..|anns| - 1]);
      var t := anns[|anns| - 1].kind;
      acc[t := (if t in acc then acc[t] else 0) + 1]
  }

  /** The reduction agrees with counting: a type has an entry exactly when
      some announcement has it, and the entry is that type's count. */
  lemma {:induction false} TypeStatsCounts(anns: seq<Announcement>, t: AnnType)
    ensures t in TypeStats(anns) <==> CountType(anns, t) > 0
    ensures t in TypeStats(anns) ==> TypeStats(anns)[t] == CountType(anns, t)
    decreases |anns|
  {
    if anns != [] {
      var init := anns[..|anns| - 1];
      var x := anns[|anns| - 1];
      assert anns == init + [x];
      TypeStatsCounts(init, t);
      CountTypeSnoc(init, x, t);
    }
  }

  /** An entry's value, 0 when the type has none. */
  function Entry(m: map<AnnType, nat>, t: AnnType): nat {
    if t in m then m[t] else 0
  }

  /** The tally's values add up to the total. */
  lemma TypeStatsSum(anns: seq<Announcement>)
    ensures Entry(TypeStats(anns), Feature) + Entry(TypeStats(anns), Update)
          + Entry(TypeStats(anns), News) + Entry(TypeStats(anns), Bugfix) == |anns|
  {
    TypeStatsCounts(anns, Feature);
    TypeStatsCounts(anns, Update);
    TypeStatsCounts(anns, News);
    TypeStatsCounts(anns, Bugfix);
    TypeCountsSum(anns);
  }

  /** The percentage `count` is of `total`, as a bar width. */
  function Percent(count: nat, total: nat): (w: real)
    requires 0 < total && count <= total
    ensures 0.0 <= w <= 100.0
    ensures w == 100.0 <==> count == total
    ensures w == 0.0 <==> count == 0
  {
    var w := (count as real / total as real) * 100.0;
    assert count as real / total as real <= 1.0;
    assert count < total ==> count as real / total as real < 1.0;
    w
  }

  /** A status bar's width: 0 for an empty list, the status's share of the
      list otherwise. */
  function StatusWidth(anns: seq<Announcement>, s: Status): (w: real)
    ensures 0.0 <= w <= 100.0
    ensures anns == [] ==> w == 0.0
    ensures w == 0.0 <==> forall i :: 0 <= i < |anns| ==> anns[i].status != s
    ensures w == 100.0 <==> anns != [] && CountStatus(anns, s) == |anns|
  {
    if |anns| > 0 then Percent(CountStatus(anns, s), |anns|) else 0.0
  }

  /** A type bar's width. It is drawn only for the tally's entries, and an
      entry exists only for a non-empty list, so the division is defined;
      the bar is never empty. */
  function TypeWidth(anns: seq<Announcement>, t: AnnType): (w: real)
    requires t in TypeStats(anns)
    ensures 0.0 < w <= 100.0
    ensures w == 100.0 <==> CountType(anns, t) == |anns|
  {
    TypeStatsCounts(anns, t);
    Percent(TypeStats(anns)[t], |anns|)
  }
}
