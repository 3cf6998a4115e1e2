/** What can happen to a message, told from the message's side: for every state and every column,
    the calls after which it differs, and what it is then.  Nothing here names the conditions the
    calls themselves are written with. */
module MailTerms {
  import opened Collections
  import opened Wrappers
  import opened Text
  import opened Mail
  import opened MailStore

  // ---------------------------------------------------------------- leaving the database

  lemma PurgedAre(s: Store, retention: int, now: int, limits: Limits)
    ensures var t := After(s, Purge(retention, now), limits);
            && t.counter == s.counter
            && (forall id :: id in t.messages ==> id in s.messages && t.messages[id] == s.messages[id])
            && (forall id :: id in s.messages ==>
                  (id !in t.messages <==>
                     s.messages[id].state != Queued && LastTouched(s.messages[id]) < now - retention))
  {
    hide LastTouched, Collected, Without;
    var gone := Stale(s.messages, now - retention);
    forall id | id in s.messages
      ensures id in gone <==> s.messages[id].state != Queued && LastTouched(s.messages[id]) < now - retention
    {}
  }

  /** Which mail a purge drops, by its state and its stamps: waiting mail never, other mail exactly
      when its last stamp lies before the retention, and archived mail judged by the first it has of
      acknowledged, read and archived. */
  lemma PurgedExactly(s: Store, retention: int, now: int, limits: Limits, id: Id)
    requires MailSound(s.messages, s.counter) && id in s.messages
    ensures var m, cutoff := s.messages[id], now - retention;
            id !in After(s, Purge(retention, now), limits).messages <==>
              match m.state
              case Queued => false
              case Acked => m.acked.value < cutoff
              case Cancelled => m.cancelled.value < cutoff
              case Read => m.read.value < cutoff
              case Undeliverable => m.created < cutoff
              case Archived => if m.acked.Some? then m.acked.value < cutoff
                               else if m.read.Some? then m.read.value < cutoff else m.archived.value < cutoff
  {
    hide After;
    PurgedAre(s, retention, now, limits);
    assert Stamped(s.messages[id]);
  }

  /** A purge drops nothing with a stamp and every stamp at or after the cutoff, nothing unstamped that
      was sent after it, and everything but waiting mail that is older by all it has. */
  lemma PurgeReadsTheStamps(s: Store, retention: int, now: int, limits: Limits, id: Id)
    requires id in s.messages
    ensures var m, cutoff, kept := s.messages[id], now - retention,
                                   id in After(s, Purge(retention, now), limits).messages;
            && ((m.created >= cutoff && (m.acked.Some? ==> m.acked.value >= cutoff)
                && (m.cancelled.Some? ==> m.cancelled.value >= cutoff) && (m.read.Some? ==> m.read.value >= cutoff)
                && (m.archived.Some? ==> m.archived.value >= cutoff)) ==> kept)
            && ((m.state != Queued && m.created < cutoff && (m.acked.Some? ==> m.acked.value < cutoff)
                && (m.cancelled.Some? ==> m.cancelled.value < cutoff) && (m.read.Some? ==> m.read.value < cutoff)
                && (m.archived.Some? ==> m.archived.value < cutoff)) ==> !kept)
  {
    hide After;
    PurgedAre(s, retention, now, limits);
  }

  /** A message leaves the database by its name in a `delete` all of whose names are there, or by a
      purge, and by nothing else; whatever else a call does, the messages left keep their columns. */
  lemma GoneExactly(s: Store, q: Request, limits: Limits, id: Id)
    requires id in s.messages
    ensures var t := After(s, q, limits);
            && (!q.Purge? ==>
                  (id !in t.messages <==> q.Delete? && id in q.ids && forall o :: o in q.ids ==> o in s.messages))
            && (q.Delete? || q.Purge? ==>
                  t.counter == s.counter && (id in t.messages ==> t.messages[id] == s.messages[id])
                  && forall o :: o in t.messages ==> o in s.messages)
            && (q.Delete? && (q.ids == [] || exists o :: o in q.ids && o !in s.messages) ==> t == s)
  {
    hide LastTouched, Collected, Without, KeepFiles;
    if q.Transition? { TransitionMoves(s.messages, q.ids, q.move, q.owner, q.now); }
    if q.Purge? { PurgedAre(s, q.retention, q.now, limits); }
    if q.Delete? { assert forall o :: o in Ids(q.ids) <==> o in q.ids; }
  }

  // ---------------------------------------------------------------- one id after the other

  /** The id is named, and nothing named up to there is missing or in another mailbox than the caller's. */
  predicate Reached(ms: Table, ids: seq<Id>, owner: Option<string>, id: Id) {
    exists k :: 0 <= k < |ids| && ids[k] == id && forall j :: 0 <= j <= k ==> Answers(ms, ids[j], owner)
  }

  predicate Answers(ms: Table, id: Id, owner: Option<string>) {
    id in ms && (owner.None? || owner.value == "" || Normalised(ms[id].mailbox) == Normalised(owner.value))
  }

  /** An `ack` or a `cancel` ends without a refusal exactly when every id answers. */
  lemma {:induction false} AllAnswer(ms: Table, ids: seq<Id>, move: Move, owner: Option<string>, now: int)
    ensures Transitioned(ms, ids, move, owner, now).error.None? <==>
              forall j :: 0 <= j < |ids| ==> Answers(ms, ids[j], owner)
    decreases |ids|
  {
    hide Normalised;
    if ids != [] {
      var before, x := ids[..|ids| - 1], ids[|ids| - 1];
      TransitionMoves(ms, before, move, owner, now);
      AllAnswer(ms, before, move, owner, now);
      if x in ms { assert Owned(Transitioned(ms, before, move, owner, now).ms[x], owner) <==> Answers(ms, x, owner); }
    }
  }

  lemma NoneReached(ms: Table, owner: Option<string>, id: Id)
    ensures !Reached(ms, [], owner, id)
  {}

  /** Which ids it changes. */
  lemma {:induction false} ChangedExactly(ms: Table, ids: seq<Id>, move: Move, owner: Option<string>, now: int, id: Id)
    requires id in ms
    ensures id in Transitioned(ms, ids, move, owner, now).changed <==>
              Reached(ms, ids, owner, id) && (ms[id].state == Queued || (move.ToAcked? && ms[id].state == Read))
    decreases |ids|
  {
    hide Answers, Owned, Reached, MovedAll;
    if ids == [] {
      NoneReached(ms, owner, id);
    } else {
      var before := ids[..|ids| - 1];
      TransitionMoves(ms, before, move, owner, now);
      ChangedExactly(ms, before, move, owner, now, id);
      AllAnswer(ms, before, move, owner, now);
      AllAnswer(ms, ids, move, owner, now);
      ReachedOneMore(ms, ids, owner, id);
      assert forall j :: 0 <= j < |before| ==> before[j] == ids[j];
    }
  }

  /** What it makes of a message. */
  lemma MovedExactly(ms: Table, ids: seq<Id>, move: Move, owner: Option<string>, now: int, id: Id)
    requires id in ms
    ensures var r, m := Transitioned(ms, ids, move, owner, now), ms[id];
            && id in r.ms
            && r.ms[id] == if !Reached(ms, ids, owner, id) then m
                           else match move
                             case ToAcked =>
                               if m.state in {Queued, Read}
                               then m.(state := Acked, acked := Some(now),
                                       read := if m.read.Some? then m.read else Some(now))
                               else m
                             case ToCancelled =>
                               if m.state == Queued then m.(state := Cancelled, cancelled := Some(now)) else m
  {
    hide Reached, Owned;
    TransitionMoves(ms, ids, move, owner, now);
    ChangedExactly(ms, ids, move, owner, now, id);
  }

  /** The first id that is missing or somebody else's says how it ends; what was changed before it
      stays changed, in the order of the ids. */
  lemma RefusedExactly(ms: Table, ids: seq<Id>, k: nat, move: Move, owner: Option<string>, now: int)
    requires k < |ids| && !Answers(ms, ids[k], owner) && forall j :: 0 <= j < k ==> Answers(ms, ids[j], owner)
    ensures var r := Transitioned(ms, ids, move, owner, now);
            && r.error == Some(if ids[k] in ms then WrongMailbox else NoMessage)
            && r == Transitioned(ms, ids[..k], move, owner, now).(error := r.error)
  {
    hide Normalised;
    var before := ids[..k];
    TransitionMoves(ms, before, move, owner, now);
    AllAnswer(ms, before, move, owner, now);
    assert ids[..k + 1][..k] == before;
    TransitionStops(ms, ids, k + 1, move, owner, now);
  }

  lemma ReachedOneMore(ms: Table, ids: seq<Id>, owner: Option<string>, id: Id)
    requires ids != []
    ensures var before := ids[..|ids| - 1];
            Reached(ms, ids, owner, id) <==>
              || Reached(ms, before, owner, id)
              || (id == ids[|ids| - 1] && forall j :: 0 <= j < |ids| ==> Answers(ms, ids[j], owner))
  {
    hide Answers;
    var n := |ids| - 1;
    var before := ids[..n];
    assert forall j :: 0 <= j < n ==> before[j] == ids[j];
    if Reached(ms, before, owner, id) {
      var k :| 0 <= k < n && before[k] == id && forall j :: 0 <= j <= k ==> Answers(ms, before[j], owner);
      assert ids[k] == id && forall j :: 0 <= j <= k ==> Answers(ms, ids[j], owner);
    }
    if Reached(ms, ids, owner, id) {
      var k :| 0 <= k < |ids| && ids[k] == id && forall j :: 0 <= j <= k ==> Answers(ms, ids[j], owner);
      if k < n { assert before[k] == id && forall j :: 0 <= j <= k ==> Answers(ms, before[j], owner); }
    }
  }

  /** The changed ids are reported in the order they were named. */
  lemma {:induction false} ReportedInOrder(ms: Table, ids: seq<Id>, n: nat, move: Move, owner: Option<string>,
                                           now: int)
    requires n <= |ids|
    ensures Transitioned(ms, ids[..n], move, owner, now).changed <= Transitioned(ms, ids, move, owner, now).changed
    decreases |ids|
  {
    if n == |ids| {
      assert ids[..n] == ids;
    } else {
      assert ids[..|ids| - 1][..n] == ids[..n];
      ReportedInOrder(ms, ids[..|ids| - 1], n, move, owner, now);
    }
  }

  // ---------------------------------------------------------------- spelling

  predicate Number(s: string) {
    |s| > 0 && forall i :: 0 <= i < |s| ==> s[i] in "0123456789"
  }

  ghost predicate Place(s: string) {
    (exists a, b :: Number(a) && Number(b) && s == "w" + a + ":p" + b) || (exists a :: Number(a) && s == "%" + a)
  }

  lemma DigitsAreTen(c: char)
    ensures c in "0123456789" <==> '0' <= c <= '9'
  {
    var all := "0123456789";
    if '0' <= c <= '9' { assert all[c as int - '0' as int] == c; }
  }

  lemma NumberIsDigits(s: string)
    ensures Number(s) <==> Digits(s)
  {
    forall c: char ensures c in "0123456789" <==> '0' <= c <= '9' { DigitsAreTen(c); }
    if Digits(s) { assert forall i :: 0 <= i < |s| ==> s[i] in s; }
  }

  lemma PlaceEndsInDigit(s: string)
    requires Place(s)
    ensures s != "" && '0' <= s[|s| - 1] <= '9'
  {
    if a, b :| Number(a) && Number(b) && s == "w" + a + ":p" + b {
      assert s[|s| - 1] == b[|b| - 1];
      DigitsAreTen(b[|b| - 1]);
    } else {
      var a :| Number(a) && s == "%" + a;
      DigitsAreTen(a[|a| - 1]);
    }
  }

  lemma WithColon(s: string, k: nat)
    requires 1 < k < |s| - 2 && s[k] == ':' && s[0] == 'w' && Digits(s[1..k]) && NumberedPlace(s[k + 1..])
    ensures Place(s)
  {
    hide Number, Digits;
    var a, b := s[1..k], s[k + 2..];
    assert s[k + 1..][1..] == b;
    NumberIsDigits(a);
    NumberIsDigits(b);
    assert s == "w" + a + ":p" + b;
  }

  lemma IsPlace(s: string)
    requires PanePlace(s)
    ensures Place(s)
  {
    hide Number, Digits;
    if s != "" && s[0] == '%' && Digits(s[1..]) {
      NumberIsDigits(s[1..]);
      assert s == "%" + s[1..];
    } else {
      hide NumberedPlace;
      var k :| 1 < k < |s| - 2 && s[k] == ':' && s[0] == 'w' && Digits(s[1..k]) && NumberedPlace(s[k + 1..]);
      WithColon(s, k);
    }
  }

  lemma PlaceSplits(s: string)
    requires Place(s)
    ensures PanePlace(s)
  {
    if a, b :| Number(a) && Number(b) && s == "w" + a + ":p" + b {
      var k := |a| + 1;
      NumberIsDigits(a);
      NumberIsDigits(b);
      assert s[1..k] == a && s[k] == ':' && s[k + 1..] == "p" + b && s[k + 1..][1..] == b;
    } else {
      var a :| Number(a) && s == "%" + a;
      NumberIsDigits(a);
      assert s[1..] == a;
    }
  }

  /** A mailbox is a pane's own when it is `w<digits>:p<digits>` or `%<digits>`, with or without a line
      feed behind it. */
  lemma PaneMailboxExactly(box: string)
    ensures PaneMailbox(box) <==> Place(box) || exists s :: box == s + "\n" && Place(s)
  {
    hide Place, PanePlace;
    var s := if box != "" && box[|box| - 1] == '\n' then box[..|box| - 1] else box;
    if PanePlace(s) {
      IsPlace(s);
      assert box == s || box == s + "\n";
    }
    if Place(box) {
      PlaceEndsInDigit(box);
      PlaceSplits(box);
    }
    if t :| box == t + "\n" && Place(t) {
      assert s == t;
      PlaceSplits(t);
    }
  }

  predicate LikeIgnoringCase(c: char, d: char) {
    || c == d
    || ('a' <= c <= 'z' && d as int == c as int - 32) || ('A' <= c <= 'Z' && d as int == c as int + 32)
  }

  /** The mailboxes that bulk archiving takes for one: the plain name, and whatever begins with it, a
      blank and an opening bracket, upper and lower case alike. */
  lemma MatchesExactly(box: string, mailbox: string)
    ensures var plain := Normalised(mailbox);
            Matches(box, mailbox) <==>
              || box == plain
              || (|box| >= |plain| + 2 && box[|plain|] == ' ' && box[|plain| + 1] == '('
                  && forall i :: 0 <= i < |plain| ==> LikeIgnoringCase(box[i], plain[i]))
  {
    hide Normalised;
    var plain := Normalised(mailbox);
    if |box| >= |plain| + 2 {
      var head, like := box[..|plain| + 2], plain + " (";
      assert forall i :: 0 <= i < |head| ==> head[i] == box[i];
      assert like[|plain|] == ' ' && like[|plain| + 1] == '(';
      assert forall i :: 0 <= i < |plain| ==> like[i] == plain[i];
      forall i | 0 <= i < |plain| ensures Lower(box[i]) == Lower(plain[i]) <==> LikeIgnoringCase(box[i], plain[i]) {}
    }
  }

  predicate Address(s: string) {
    |s| > 0 && forall i :: 0 <= i < |s| ==>
      || '0' <= s[i] <= '9' || 'a' <= s[i] <= 'z' || 'A' <= s[i] <= 'Z' || s[i] == '_' || s[i] == '.' || s[i] == '-'
  }

  ghost predicate Pane(s: string) {
    (exists a, b :: Address(a) && Address(b) && s == a + ":p" + b) || (exists a :: Number(a) && s == "%" + a)
  }

  lemma PaneHasNoBracket(s: string)
    requires Pane(s)
    ensures '(' !in s
  {
    if a, b :| Address(a) && Address(b) && s == a + ":p" + b {
    } else {
      var a :| Number(a) && s == "%" + a;
      NumberIsDigits(a);
    }
  }

  lemma PaneWithHost(s: string, a: string, b: string)
    requires Address(a) && Address(b) && s == a + ":p" + b
    ensures PaneId(s)
  {
    var k := |a|;
    assert s[..k] == a && s[k] == ':' && s[k + 1..] == "p" + b;
  }

  lemma HostBefore(s: string, k: nat)
    requires 0 < k < |s| - 2 && s[k] == ':' && Mail.Address(s[..k], s[k + 1..])
    ensures Pane(s)
  {
    var a, b := s[..k], s[k + 2..];
    assert s[k + 1..][1..] == b;
    assert forall i :: 0 <= i < |a| ==> a[i] in s[..k];
    assert forall i :: 0 <= i < |b| ==> b[i] == s[k + 1..][i + 1] && b[i] in s[k + 1..];
    assert Address(a) && Address(b);
    assert s == a + ":p" + b;
  }

  lemma PaneSplits(s: string)
    ensures Pane(s) <==> PaneId(s)
  {
    hide Address, Mail.Address, Number, Digits;
    if a, b :| Address(a) && Address(b) && s == a + ":p" + b { PaneWithHost(s, a, b); }
    if a :| Number(a) && s == "%" + a {
      NumberIsDigits(a);
      assert s[1..] == a;
    }
    if s != "" && s[0] == '%' && Digits(s[1..]) {
      NumberIsDigits(s[1..]);
      assert s == "%" + s[1..];
    }
    if k :| 0 < k < |s| - 2 && s[k] == ':' && Mail.Address(s[..k], s[k + 1..]) { HostBefore(s, k); }
  }

  lemma BracketAt(t: string, a: string, b: string)
    requires t == a + "(" + b + ")" && '(' !in b
    ensures LastBracket(t) == |a|
  {
    BracketBehind(t, |a|);
    assert forall k :: |a| < k < |t| - 1 ==> t[k] == b[k - |a| - 1];
  }

  lemma BracketStays(b: string)
    requires '(' in b
    ensures '(' in Strip(b)
  {
    var i :| 0 <= i < |b| && b[i] == '(';
    InStripLeft(b, i);
    var t := StripLeft(b);
    var j :| 0 <= j < |t| && t[j] == '(';
    StripRightKeeps(t, j + 1);
    assert StripRight(t)[j] == t[j];
  }

  lemma {:induction false} InStripLeft(s: string, i: nat)
    requires i < |s| && !IsSpace(s[i])
    ensures s[i] in StripLeft(s)
    decreases |s|
  {
    if IsSpace(s[0]) { InStripLeft(s[1..], i - 1); }
  }

  /** One mailbox in two spellings: a pane in brackets behind a name is left out, unless nothing else
      is there. */
  lemma BracketsAreDropped(name: string, a: string, b: string)
    requires Strip(name) == a + "(" + b + ")" && Pane(Strip(b))
    ensures Normalised(name) == if Strip(a) != "" then Strip(a) else Strip(name)
  {
    hide Pane, PaneId, StripRight, StripLeft, IsSpace;
    var t := Strip(name);
    PaneHasNoBracket(Strip(b));
    if '(' in b { BracketStays(b); }
    BracketAt(t, a, b);
    assert t[..|a|] == a && t[|a| + 1..|t| - 1] == b;
    PaneSplits(Strip(b));
  }

  /** Any other name is only trimmed. */
  lemma OtherNamesStay(name: string)
    requires forall a, b :: Strip(name) == a + "(" + b + ")" ==> !Pane(Strip(b))
    ensures Normalised(name) == Strip(name)
  {
    hide Pane, PaneId, Strip;
    var t := Strip(name);
    var k := LastBracket(t);
    if k < |t| && t[|t| - 1] == ')' && k < |t| - 1 {
      var a, b := t[..k], t[k + 1..|t| - 1];
      assert t == a + "(" + b + ")";
      PaneSplits(Strip(b));
    }
  }

  // ---------------------------------------------------------------- staying and changing

  lemma Republishing(s: Store, q: Request, id: Id)
    requires q.Digest? && MailSound(s.messages, s.counter) && id in s.messages
    ensures id in AfterDigest(s, q).messages
    ensures var m := s.messages[id];
            AfterDigest(s, q).messages[id]
            == if m.digest == Some(q.digest) && Strip(q.body) != "" && Bytes(q.body) <= 8388608
               then Message(q.mailbox, q.pane, q.body, Queued, m.created, None, None, None, None, None, Some(q.digest))
               else m
  {
    hide Strip, Bytes;
    assert id.Sent? ==> id.number <= s.counter;
  }

  /** A digest published again is unread mail once more under the old number and date, in whatever
      state it was; a digest and a bulk update, an `ack` and a `cancel` are all that changes a message
      that stays. */
  lemma StaysExactly(s: Store, q: Request, limits: Limits, id: Id)
    requires MailSound(s.messages, s.counter) && Possible(s, q)
    requires id in s.messages && id in After(s, q, limits).messages
    ensures var m, n := s.messages[id], After(s, q, limits).messages[id];
            match q
            case Digest(mailbox, pane, body, digest, _) =>
              n == if m.digest == Some(digest) && Strip(body) != "" && Bytes(body) <= 8388608
                   then Message(mailbox, pane, body, Queued, m.created, None, None, None, None, None, Some(digest))
                   else m
            case Update(c) => n == Effect(c, id, m)
            case Transition(ids, move, owner, now) => n == Transitioned(s.messages, ids, move, owner, now).ms[id]
            case _ => n == m
  {
    hide Hit, Rewritten, LastTouched, Collected, Without, KeepFiles, Transitioned, Refusal;
    if q.Digest? { Republishing(s, q, id); }
    if q.Send? { assert id.Sent? ==> id.number <= s.counter; }
    if q.Delete? || q.Purge? { GoneExactly(s, q, limits, id); }
  }

  /** A message gets read by a marking read that hands it out and by being named, waiting either way. */
  lemma ReadExactly(s: Store, q: Request, limits: Limits, id: Id)
    requires MailSound(s.messages, s.counter) && Possible(s, q)
    requires id in s.messages && id in After(s, q, limits).messages
    ensures var m, n := s.messages[id], After(s, q, limits).messages[id];
            && (m.state != Read && n.state == Read <==>
                  m.state == Queued && q.Update?
                  && ((q.call.ReadBox? && q.call.marks && id in q.call.batch)
                      || (q.call.MarkRead? && id in q.call.ids)))
            && (m.state != Read && n.state == Read ==> n == m.(state := Read, read := Some(q.call.now)))
  {
    hide After, Matches, PaneMailbox, Reached;
    StaysExactly(s, q, limits, id);
    if q.Transition? { MovedExactly(s.messages, q.ids, q.move, q.owner, q.now, id); }
  }

  /** It gets acknowledged, or cancelled, by such a call that comes as far as its id. */
  lemma SettledExactly(s: Store, q: Request, limits: Limits, id: Id)
    requires MailSound(s.messages, s.counter) && Possible(s, q)
    requires id in s.messages && id in After(s, q, limits).messages
    ensures var m, n := s.messages[id], After(s, q, limits).messages[id];
            && (m.state != Acked && n.state == Acked <==>
                  q.Transition? && q.move.ToAcked? && Reached(s.messages, q.ids, q.owner, id)
                  && m.state in {Queued, Read})
            && (m.state != Acked && n.state == Acked ==>
                  n == m.(state := Acked, acked := Some(q.now), read := if m.read.Some? then m.read else Some(q.now)))
            && (m.state != Cancelled && n.state == Cancelled <==>
                  q.Transition? && q.move.ToCancelled? && Reached(s.messages, q.ids, q.owner, id)
                  && m.state == Queued)
            && (m.state != Cancelled && n.state == Cancelled ==> n == m.(state := Cancelled, cancelled := Some(q.now)))
  {
    hide After, Matches, PaneMailbox, Reached;
    StaysExactly(s, q, limits, id);
    if q.Transition? { MovedExactly(s.messages, q.ids, q.move, q.owner, q.now, id); }
  }

  /** It becomes undeliverable by a report of live panes that lacks its own, unless the report is empty. */
  lemma UndeliverableExactly(s: Store, q: Request, limits: Limits, id: Id)
    requires MailSound(s.messages, s.counter) && Possible(s, q)
    requires id in s.messages && id in After(s, q, limits).messages
    ensures var m, n := s.messages[id], After(s, q, limits).messages[id];
            && (m.state != Undeliverable && n.state == Undeliverable <==>
                  && m.state == Queued && q.Update? && q.call.MarkUndeliverable? && q.call.live != {}
                  && ((m.pane.Some? && m.pane.value !in q.call.live)
                      || (m.mailbox !in q.call.live
                          && (Place(m.mailbox) || exists b :: m.mailbox == b + "\n" && Place(b)))))
            && (m.state != Undeliverable && n.state == Undeliverable ==>
                  n == m.(state := Undeliverable, reason := Some("target pane no longer exists")))
  {
    hide After, Matches, PaneMailbox, Place, Reached;
    StaysExactly(s, q, limits, id);
    PaneMailboxExactly(s.messages[id].mailbox);
    if q.Transition? { MovedExactly(s.messages, q.ids, q.move, q.owner, q.now, id); }
  }

  /** It gets archived by its mailbox, once waiting, read or acknowledged as the caller chose and older
      than the caller's date; when it has been undeliverable for an age; and with its retired mailbox
      after an age, waiting or undeliverable.  Stamps and reasons already given stay. */
  lemma ArchivedExactly(s: Store, q: Request, limits: Limits, id: Id)
    requires MailSound(s.messages, s.counter) && Possible(s, q)
    requires id in s.messages && id in After(s, q, limits).messages
    ensures var m, n := s.messages[id], After(s, q, limits).messages[id];
            && (m.state != Mail.Archived && n.state == Mail.Archived <==>
                  q.Update? && match q.call
                               case Archive(mailbox, states, before, _) =>
                                 && Matches(m.mailbox, mailbox) && m.state in states
                                 && m.state != Cancelled && m.state != Mail.Archived && m.state != Undeliverable
                                 && (before.None? || m.created < before.value)
                               case AutoArchive(age, now) => m.state == Undeliverable && m.created + age < now
                               case ArchiveRetired(boxes, age, _, now) =>
                                 m.mailbox in boxes && (m.state == Queued || m.state == Undeliverable)
                                 && m.created + age < now
                               case _ => false)
            && (m.state != Mail.Archived && n.state == Mail.Archived ==>
                  n == m.(state := Mail.Archived, archived := Some(q.call.now), read := n.read, reason := n.reason)
                  && n.read == (if m.read.Some? || q.call.AutoArchive? then m.read else Some(q.call.now))
                  && n.reason == (if m.reason.Some? || q.call.Archive? then m.reason
                                  else if q.call.ArchiveRetired? then Some(q.call.reason)
                                  else Some("undeliverable older than 24h")))
  {
    hide After, Matches, PaneMailbox, Reached;
    StaysExactly(s, q, limits, id);
    if q.Transition? { MovedExactly(s.messages, q.ids, q.move, q.owner, q.now, id); }
  }

  /** A message whose state stays is left as it is, except that it moves with its mailbox, and but for
      a digest published again. */
  lemma SameStateExactly(s: Store, q: Request, limits: Limits, id: Id)
    requires MailSound(s.messages, s.counter) && Possible(s, q) && !q.Digest?
    requires id in s.messages && id in After(s, q, limits).messages
    requires After(s, q, limits).messages[id].state == s.messages[id].state
    ensures var m, n := s.messages[id], After(s, q, limits).messages[id];
            n == if q.Update? && q.call.Rename? && q.call.from == m.mailbox then m.(mailbox := q.call.to) else m
  {
    hide After, Matches, PaneMailbox, Reached;
    StaysExactly(s, q, limits, id);
    if q.Transition? { MovedExactly(s.messages, q.ids, q.move, q.owner, q.now, id); }
  }

  // ---------------------------------------------------------------- the length of a text

  /** The octets of a character in UTF-8, section 3 of RFC 3629. */
  function Utf8(n: nat): seq<nat> {
    if n < 128 then [n]
    else if n < 2048 then [192 + n / 64, 128 + n % 64]
    else if n < 65536 then [224 + n / 4096, 128 + n / 64 % 64, 128 + n % 64]
    else [240 + n / 262144, 128 + n / 4096 % 64, 128 + n / 64 % 64, 128 + n % 64]
  }

  function Encoded(s: string): seq<nat> {
    if s == "" then [] else Utf8(s[0] as int) + Encoded(s[1..])
  }

  /** The length of a text is that of its encoding. */
  lemma {:induction false} BytesAreUtf8(s: string)
    ensures Bytes(s) == |Encoded(s)|
  {
    if s != "" { BytesAreUtf8(s[1..]); }
  }

  // ---------------------------------------------------------------- coming into the database

  /** The file is there, not too big, and stored already or within what the files before it leave. */
  predicate Storable(blobs: seq<Content>, files: seq<File>, i: nat, limits: Limits)
    requires i < |files|
  {
    var f, held := files[i], KeepFiles(blobs, files[..i], limits).blobs;
    f.File? && |f.content| <= limits.file && (f.content in held || Total(held) + |f.content| <= limits.total)
  }

  lemma OneMoreStored(blobs: seq<Content>, files: seq<File>, n: nat, limits: Limits)
    requires n < |files|
    ensures KeepFiles(blobs, files[..n + 1], limits).error.None? <==>
              KeepFiles(blobs, files[..n], limits).error.None? && Storable(blobs, files, n, limits)
  {
    assert files[..n + 1][..n] == files[..n];
  }

  lemma {:induction false} StoredUpTo(blobs: seq<Content>, files: seq<File>, n: nat, limits: Limits)
    requires n <= |files|
    ensures KeepFiles(blobs, files[..n], limits).error.None? <==>
              forall i :: 0 <= i < n ==> Storable(blobs, files, i, limits)
  {
    hide Storable;
    if n > 0 {
      hide KeepFiles;
      StoredUpTo(blobs, files, n - 1, limits);
      OneMoreStored(blobs, files, n - 1, limits);
    }
  }

  /** The files of a message are stored exactly when each of them can be. */
  lemma StoredExactly(blobs: seq<Content>, files: seq<File>, limits: Limits)
    ensures KeepFiles(blobs, files, limits).error.None? <==>
              forall i :: 0 <= i < |files| ==> Storable(blobs, files, i, limits)
  {
    hide Storable, KeepFiles;
    StoredUpTo(blobs, files, |files|, limits);
    assert files[..|files|] == files;
  }

  /** The first file that cannot be says how it ends; what was stored before it stays. */
  lemma FirstRefused(blobs: seq<Content>, files: seq<File>, k: nat, limits: Limits)
    requires k < |files| && !Storable(blobs, files, k, limits)
    requires forall i :: 0 <= i < k ==> Storable(blobs, files, i, limits)
    ensures KeepFiles(blobs, files, limits)
            == Kept(KeepFiles(blobs, files[..k], limits).blobs,
                    Some(if files[k].Absent? then NoFile
                         else if |files[k].content| > limits.file then FileTooBig else StoreFull))
  {
    StoredUpTo(blobs, files, k, limits);
    assert files[..k + 1][..k] == files[..k];
    RefusalStands(blobs, files, k + 1, limits);
  }

  /** The attachments of a message are those that name it, in their order. */
  lemma {:induction false} OfExactly(attachments: seq<Attachment>, a: Attachment, more: seq<Attachment>, id: Id)
    ensures Of([], id) == []
    ensures Of(attachments + [a] + more, id)
            == Of(attachments, id) + (if a.message == id then [a] else []) + Of(more, id)
    decreases |more|
  {
    if more == [] {
      assert attachments + [a] + more == attachments + [a];
      assert (attachments + [a])[..|attachments|] == attachments;
      assert Of(more, id) == [];
    } else {
      var n := |more| - 1;
      var all := attachments + [a] + more;
      assert all[..|all| - 1] == attachments + [a] + more[..n] && all[|all| - 1] == more[n];
      OfExactly(attachments, a, more[..n], id);
      OfNext(all, id);
      OfNext(more, id);
    }
  }

  lemma OfNext(attachments: seq<Attachment>, id: Id)
    requires attachments != []
    ensures var n := |attachments| - 1;
            Of(attachments, id)
            == Of(attachments[..n], id) + if attachments[n].message == id then [attachments[n]] else []
  {}

  /** All stored files, one behind the other. */
  function Together(blobs: seq<Content>): Content {
    if blobs == [] then [] else Together(blobs[..|blobs| - 1]) + blobs[|blobs| - 1]
  }

  /** What counts against the ceiling of the store is the size of all its files together. */
  lemma {:induction false} TotalIsSize(blobs: seq<Content>)
    ensures Total(blobs) == |Together(blobs)|
  {
    if blobs != [] { TotalIsSize(blobs[..|blobs| - 1]); }
  }

  /** What a message new in the database is, and when there is one: sent to somebody, with a text of at
      most eight megabytes or files, all of them stored; a digest nobody holds yet, with such a text;
      or the message of a handoff. */
  lemma AddedExactly(s: Store, q: Request, limits: Limits, id: Id)
    requires id !in s.messages
    ensures var t := After(s, q, limits);
            id in t.messages <==>
              || (q.Send? && id == Sent(s.counter + 1) && Strip(q.mailbox) != "" && Bytes(q.body) <= 8388608
                  && (Strip(q.body) != "" || q.files != []) && KeepFiles(s.blobs, q.files, limits).error.None?)
              || (q.Digest? && id == Sent(s.counter + 1) && Strip(q.body) != "" && Bytes(q.body) <= 8388608
                  && forall o :: o in s.messages ==> s.messages[o].digest != Some(q.digest))
              || (q.EnsureNextJob? && id == q.id && id.NextJob?)
    ensures var t := After(s, q, limits);
            id in t.messages ==>
              t.messages[id] == Message(if q.Send? then Strip(q.mailbox) else q.mailbox,
                                        if q.EnsureNextJob? then Some(q.place) else q.pane, q.body, Queued, q.now,
                                        None, None, None, None, None, if q.Digest? then Some(q.digest) else None)
  {
    hide Strip, Bytes, Collected, Without, KeepFiles, Effect, LastTouched;
    if q.Transition? { TransitionMoves(s.messages, q.ids, q.move, q.owner, q.now); }
  }

  /** The counter goes on exactly when it gave a number; the files of a sent message are its attachments,
      in order and numbered from one, and no other call adds any. */
  lemma CountedExactly(s: Store, q: Request, limits: Limits)
    requires MailSound(s.messages, s.counter)
    ensures var t := After(s, q, limits);
            && t.counter == (if Sent(s.counter + 1) in t.messages then s.counter + 1 else s.counter)
            && (!q.Delete? && !q.Purge? ==>
                  && s.attachments <= t.attachments
                  && |t.attachments| == |s.attachments| + (if q.Send? && t.counter > s.counter then |q.files| else 0)
                  && forall i :: 0 <= i < |t.attachments| - |s.attachments| ==>
                       q.files[i].File?
                       && t.attachments[|s.attachments| + i]
                          == Attachment(Sent(t.counter), i + 1, q.files[i].name, q.files[i].content))
  {
    hide Strip, Bytes, Collected, Without, KeepFiles, Effect, LastTouched, Transitioned, Refusal, Stale, Stamped;
    assert Sent(s.counter + 1) !in s.messages;
    AddedExactly(s, q, limits, Sent(s.counter + 1));
    if q.Send? && KeepFiles(s.blobs, q.files, limits).error.None? { AcceptedAreFiles(s.blobs, q.files, limits); }
  }

  lemma AcceptedAreFiles(blobs: seq<Content>, files: seq<File>, limits: Limits)
    requires KeepFiles(blobs, files, limits).error.None?
    ensures forall i :: 0 <= i < |files| ==> files[i].File?
  {
    hide KeepFiles;
    StoredExactly(blobs, files, limits);
    forall i | 0 <= i < |files| ensures files[i].File? { assert Storable(blobs, files, i, limits); }
  }
}
