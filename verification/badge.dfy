/** The unread badge rule both widgets apply: hidden, the digits of the
    count, or "9+". */
module Badge {
  import opened Common

  datatype Badge = Hidden | Shown(text: string)

  /** The badge for `unread` unread announcements. */
  function BadgeFor(showBadge: bool, unread: nat): (b: Badge)
    ensures b.Shown? <==> showBadge && unread > 0
    ensures b.Shown? ==> (b.text == "9+" <==> unread > 9)
    ensures b.Shown? && unread <= 9 ==> |b.text| == 1 && b.text[0] as int - '0' as int == unread
  {
    if showBadge && unread > 0 then
      Shown(if unread > 9 then "9+" else DigitText(unread))
    else
      Hidden
  }

  /** The count a shown label tells the viewer: its digit, or 10 for "9+"
      (read as "at least ten"). */
  function LabelCount(text: string): int {
    if text == "9+" then 10
    else if |text| == 1 then text[0] as int - '0' as int
    else -1
  }

  /** A shown label reads back as the exact count up to nine and as "at
      least ten" above; a hidden badge means nothing is unread or badges
      are switched off. */
  lemma BadgeReadsBack(showBadge: bool, unread: nat)
    ensures BadgeFor(showBadge, unread).Shown? ==>
      LabelCount(BadgeFor(showBadge, unread).text) == (if unread > 9 then 10 else unread)
    ensures BadgeFor(showBadge, unread).Hidden? ==> !showBadge || unread == 0
  {
  }
}
