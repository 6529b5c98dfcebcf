/**
 A copy of a row that never hears a stretch of the log: when it still ends as the row does that heard
 everything.
 */
module MissedEvents {
  import opened Wrappers
  import opened Keyset
  import opened MessageTable

  predicate ReplacedIn(events: seq<Event>, id: Id) {
    exists i :: 0 <= i < |events| && Replaces(events[i], id)
  }

  predicate ReactedIn(events: seq<Event>, id: Id) {
    exists i :: 0 <= i < |events| && events[i].Reacted? && events[i].id == id
  }

  /**
   Missing `missed` does no harm to a copy of `r` that then hears `ahead`: a later update replaces the
   row, or the missed events changed nothing but its reactions, and those not or to be sent again.
   */
  predicate Harmless(r: Row, missed: seq<Event>, ahead: seq<Event>) {
    var after := Replay(Some(r), missed, r.id);
    || ReplacedIn(ahead, r.id)
    || (&& after.Some? && after.value == r.(reactions := after.value.reactions)
        && (after == Some(r) || ReactedIn(ahead, r.id)))
  }

  /** With no replacement a row changes in its reactions only, and in those only if they are sent. */
  lemma {:induction false} ReactionsOnly(a: Row, b: Row, events: seq<Event>)
    requires b == a.(reactions := b.reactions) && !ReplacedIn(events, a.id)
    ensures Replay(Some(a), events, a.id).Some? && Replay(Some(b), events, a.id).Some?
    ensures var x, y := Replay(Some(a), events, a.id).value, Replay(Some(b), events, a.id).value;
      && x == a.(reactions := x.reactions)
      && (if ReactedIn(events, a.id) then x == y else x == a && y == b)
    decreases |events|
  {
    if events != [] {
      assert !Replaces(events[0], a.id);
      assert forall i | 0 <= i < |events[1..]| :: events[1..][i] == events[i + 1];
      ReactionsOnly(Patch(a, events[0]), Patch(b, events[0]), events[1..]);
      assert ReactedIn(events, a.id) <==> (events[0].Reacted? && events[0].id == a.id) || ReactedIn(events[1..], a.id);
    }
  }

  /** The copy that missed a stretch ends as the one that heard it, if and only if the miss is harmless. */
  lemma MissedIffHarmless(r: Row, missed: seq<Event>, ahead: seq<Event>)
    ensures Replay(Some(r), ahead, r.id) == Replay(Some(r), missed + ahead, r.id) <==> Harmless(r, missed, ahead)
  {
    ReplayConcat(Some(r), missed, ahead, r.id);
    ReplayKeepsId(r, missed, r.id);
    var after := Replay(Some(r), missed, r.id).value;
    if ReplacedIn(ahead, r.id) {
      var i :| 0 <= i < |ahead| && Replaces(ahead[i], r.id);
      ReplacementForgetsTheStart(r, after, ahead, r.id, i);
    } else if after == r.(reactions := after.reactions) {
      ReactionsOnly(r, after, ahead);
    } else {
      ReactionsOnly(r, r, ahead);
      ReactionsOnly(after, after, ahead);
    }
  }
}
