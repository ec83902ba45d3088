/** Windows that open on use: the first call opens one, and then each first call a whole span or
    more after the latest opening. */
module Windows {
  import opened Numerics

  /** The call that opened the window in force after the first n events. */
  function Opening(calls: seq<Option<nat>>, span: nat, n: nat): (o: Option<nat>)
    requires n <= |calls|
    ensures o.Some? ==> o.value < n && calls[o.value].Some?
  {
    if n == 0 then None
    else
      var before := Opening(calls, span, n - 1);
      if calls[n - 1].None? then before
      else if before.None? || calls[before.value].value + span <= calls[n - 1].value then Some(n - 1)
      else before
  }

  /** No window is in force exactly while there was no call. Otherwise every call from the opening on
      came less than a span after it, and the opening came a whole span or more after the one before it,
      or was the first call of all. */
  lemma {:induction false} OpeningsFollow(calls: seq<Option<nat>>, span: nat, n: nat)
    requires n <= |calls| && span > 0
    ensures var o := Opening(calls, span, n);
            if o.None? then forall i :: 0 <= i < n ==> calls[i].None?
            else
              var p := Opening(calls, span, o.value);
              && (forall i :: o.value <= i < n && calls[i].Some? ==> calls[i].value < calls[o.value].value + span)
              && (if p.None? then forall i :: 0 <= i < o.value ==> calls[i].None?
                  else calls[p.value].value + span <= calls[o.value].value)
  {
    if n > 0 {
      OpeningsFollow(calls, span, n - 1);
    }
  }

  /** A count as a 32-bit counter that saturates shows it. */
  function Shown(count: nat): nat {
    if count < U32_MAX then count else U32_MAX
  }

  lemma ShownOnce(count: nat)
    ensures Shown(count + 1) == SatInc(Shown(count)) && Shown(0) == 0
  {
  }
}
