/** The message table of the inboxes: what every call does to it, and the life of a message. */
module Mail {
  import opened Collections
  import opened Wrappers
  import opened Text

  datatype State = Queued | Read | Acked | Cancelled | Archived | Undeliverable

  /** `i<n>` from the counter, or the id a handoff chose before the message existed. */
  datatype Id = Sent(number: nat) | NextJob(name: string)

  datatype Message = Message(
    mailbox: string, pane: Option<string>, body: string, state: State, created: int,
    read: Option<int>, acked: Option<int>, archived: Option<int>, cancelled: Option<int>,
    reason: Option<string>, digest: Option<string>)

  type Table = map<Id, Message>

  datatype Error =
    | NeedsMailbox | NeedsBody | BodyTooBig | NeedsId | NeedsState | NoMessage | WrongMailbox
    | NotNextJob | RecipientChanged | NoFile | FileTooBig | StoreFull

  const MAX_BODY_BYTES: nat := 8 * 1024 * 1024
  const GONE := "target pane no longer exists"
  const OLD := "undeliverable older than 24h"
  const RETIRED := "mailbox of a retired pane"

  function Bytes(s: string): nat {
    if s == "" then 0
    else (if s[0] < '\U{80}' then 1 else if s[0] < '\U{800}' then 2 else if s[0] < '\U{10000}' then 3 else 4)
         + Bytes(s[1..])
  }

  function Fresh(mailbox: string, pane: Option<string>, body: string, now: int, digest: Option<string>): Message {
    Message(mailbox, pane, body, Queued, now, None, None, None, None, None, digest)
  }

  function OrElse<T>(o: Option<T>, t: T): Option<T> {
    if o.Some? then o else Some(t)
  }

  // ---------------------------------------------------------------- spelling a mailbox

  predicate IsAddressChar(c: char) {
    '0' <= c <= '9' || 'a' <= c <= 'z' || 'A' <= c <= 'Z' || c == '_' || c == '.' || c == '-'
  }

  predicate Digits(s: string) {
    s != "" && forall c :: c in s ==> '0' <= c <= '9'
  }

  predicate Address(host: string, place: string) {
    place != "" && place[0] == 'p' && (forall c :: c in host ==> IsAddressChar(c))
      && (forall c :: c in place ==> IsAddressChar(c))
  }

  /** `<word>:p<word>` or `%<digits>`, as it may stand in brackets behind a name. */
  predicate PaneId(s: string) {
    || (s != "" && s[0] == '%' && Digits(s[1..]))
    || exists k :: 0 < k < |s| - 2 && s[k] == ':' && Address(s[..k], s[k + 1..])
  }

  /** Where the last opening bracket stands, or the length of the text. */
  function LastBracket(s: string): (k: nat)
    ensures k <= |s| && (k < |s| ==> s[k] == '(')
  {
    if s == "" then 0
    else
      var k := LastBracket(s[1..]);
      if k < |s| - 1 then k + 1 else if s[0] == '(' then 0 else |s|
  }

  /** The name without a pane id in brackets behind it. */
  function Normalised(name: string): string {
    WithoutPane(Strip(name))
  }

  function WithoutPane(text: string): string {
    var k := LastBracket(text);
    if k < |text| && text[|text| - 1] == ')' && k < |text| - 1 && PaneId(Strip(text[k + 1..|text| - 1]))
    then (var plain := Strip(text[..k]); if plain != "" then plain else text)
    else text
  }

  predicate SameIgnoringCase(a: string, b: string) {
    |a| == |b| && forall i :: 0 <= i < |a| ==> Lower(a[i]) == Lower(b[i])
  }

  /** `mailbox_where`: the plain name, or anything that starts with it and an opening bracket. */
  predicate Matches(box: string, mailbox: string) {
    var plain := Normalised(mailbox);
    box == plain || (|box| >= |plain| + 2 && SameIgnoringCase(box[..|plain| + 2], plain + " ("))
  }

  /** Behind the first `n` characters and a blank there is one pane id in brackets, and nothing else. */
  predicate PaneBehind(box: string, n: nat) {
    PaneIn(StripRight(box), n)
  }

  predicate PaneIn(text: string, n: nat) {
    && n + 2 < |text| && LastBracket(text) == n + 1 && text[|text| - 1] == ')'
    && PaneId(Strip(text[n + 2..|text| - 1]))
  }

  /** Exactly when a mailbox that `mailbox_where` matches, other than the plain name itself, is the same
      mailbox for `normalise_mailbox`: when the name is spelled the same and one pane id in brackets is
      all that follows.  Any other match is somebody else's mailbox. */
  lemma MatchedIsSameExactly(box: string, mailbox: string)
    requires Matches(box, mailbox) && Normalised(mailbox) != "" && box != Normalised(mailbox)
    ensures var plain := Normalised(mailbox);
            Normalised(box) == plain <==> box[..|plain|] == plain && PaneBehind(box, |plain|)
  {
    NormalisedIsTrimmed(mailbox);
    SameBoxExactly(box, Normalised(mailbox));
  }

  lemma SameBoxExactly(box: string, plain: string)
    requires NameAndBracket(box, |plain|)
    ensures WithoutPane(Strip(box)) == plain <==> box[..|plain|] == plain && PaneBehind(box, |plain|)
  {
    StripRightKeeps(box, |plain| + 2);
    var text := StripRight(box);
    assert StripLeft(box) == box;
    assert NameAndBracket(text, |plain|) by { assert text[..|plain| + 2] == box[..|plain| + 2]; }
    assert text[..|plain|] == box[..|plain|];
    WithoutPaneExactly(text, plain);
  }

  /** A name, a blank and an opening bracket, in any case. */
  predicate NameAndBracket(s: string, n: nat) {
    0 < n && n + 2 <= |s| && !IsSpace(s[0]) && !IsSpace(s[n - 1]) && s[n] == ' ' && s[n + 1] == '('
  }

  lemma WithoutPaneExactly(text: string, plain: string)
    requires NameAndBracket(text, |plain|)
    ensures var n := |plain|;
            WithoutPane(text) == plain <==> text[..n] == plain && PaneIn(text, n)
  {
    var n, k := |plain|, LastBracket(text);
    BracketBehind(text, n + 1);
    if text[|text| - 1] == ')' && k < |text| - 1 && PaneId(Strip(text[k + 1..|text| - 1])) {
      StripBefore(text, n, k);
    }
  }

  lemma NormalisedIsTrimmed(name: string)
    ensures Trimmed(Normalised(name))
  {
    StripTrims(name);
    var text := Strip(name);
    StripTrims(text[..LastBracket(text)]);
  }

  lemma {:induction false} StripRightKeeps(s: string, n: nat)
    requires 0 < n <= |s| && !IsSpace(s[n - 1])
    ensures n <= |StripRight(s)| && StripRight(s)[..n] == s[..n]
    decreases |s|
  {
    if IsSpace(s[|s| - 1]) { StripRightKeeps(s[..|s| - 1], n); }
  }

  lemma {:induction false} BracketBehind(s: string, i: nat)
    requires i < |s| && s[i] == '('
    ensures i <= LastBracket(s) < |s|
    decreases i
  {
    if i > 0 { BracketBehind(s[1..], i - 1); }
  }

  /** What stands before the last bracket, trimmed, is the first `n` characters or longer. */
  lemma StripBefore(text: string, n: nat, k: nat)
    requires NameAndBracket(text, n) && n + 1 <= k < |text|
    ensures if k == n + 1 then Strip(text[..k]) == text[..n] else |Strip(text[..k])| > n
  {
    var s := text[..k];
    assert StripLeft(s) == s;
    if k == n + 1 {
      assert s[k - 1] == ' ' && s[..k - 1] == text[..n];
      assert StripRight(text[..n]) == text[..n];
    } else {
      StripRightKeeps(s, n + 2);
    }
  }

  /** `ops (old)` is another mailbox, and matched. */
  lemma BracketedNameIsMatched()
    ensures Matches("ops (old)", "ops") && Normalised("ops (old)") != Normalised("ops")
  {
    hide PaneBehind, PaneId, StripRight, StripLeft, IsSpace;
    var box := "ops (old)";
    PlainName();
    assert Matches(box, "ops") by {
      assert box[..5] == "ops (";
    }
    OldIsNoPane(box);
    MatchedIsSameExactly(box, "ops");
  }

  lemma PlainName()
    ensures Normalised("ops") == "ops"
  {
    assert StripLeft("ops") == "ops" && StripRight("ops") == "ops";
    NoBracket("ops");
  }

  lemma OldIsNoPane(box: string)
    requires box == "ops (old)"
    ensures !PaneBehind(box, 3)
  {
    StripRightKeeps(box, 9);
    assert StripRight(box) == box && box[5..8] == "old";
    assert StripLeft("old") == "old" && StripRight("old") == "old";
    assert !PaneId("old");
  }

  lemma {:induction false} NoBracket(s: string)
    requires '(' !in s
    ensures LastBracket(s) == |s|
    decreases |s|
  {
    if s != "" { NoBracket(s[1..]); }
  }

  predicate NumberedPlace(place: string) {
    place != "" && place[0] == 'p' && Digits(place[1..])
  }

  predicate PanePlace(s: string) {
    || (s != "" && s[0] == '%' && Digits(s[1..]))
    || exists k :: 1 < k < |s| - 2 && s[k] == ':' && s[0] == 'w' && Digits(s[1..k]) && NumberedPlace(s[k + 1..])
  }

  /** A mailbox that is itself a pane id; a final line feed is let through. */
  predicate PaneMailbox(box: string) {
    PanePlace(if box != "" && box[|box| - 1] == '\n' then box[..|box| - 1] else box)
  }

  // ---------------------------------------------------------------- updates of every row

  datatype Call =
    | ReadBox(mailbox: string, batch: seq<Id>, marks: bool, now: int)
    | MarkRead(ids: seq<Id>, now: int)
    | Archive(mailbox: string, states: set<State>, before: Option<int>, now: int)
    | MarkUndeliverable(live: set<string>)
    | AutoArchive(age: int, now: int)
    | ArchiveRetired(boxes: set<string>, age: int, reason: string, now: int)
    | Rename(from: string, to: string)
    | Republish(mailbox: string, pane: Option<string>, body: string, digest: string)

  predicate Dead(m: Message, live: set<string>) {
    (m.pane.Some? && m.pane.value !in live) || (PaneMailbox(m.mailbox) && m.mailbox !in live)
  }

  /** The rows a call updates. */
  predicate Hit(c: Call, id: Id, m: Message) {
    match c
    case ReadBox(_, batch, marks, _) => marks && id in batch && m.state == Queued
    case MarkRead(ids, _) => id in ids && m.state == Queued
    case Archive(mailbox, states, before, _) =>
      && Matches(m.mailbox, mailbox) && m.state in states * {Queued, Read, Acked}
      && (before.Some? ==> m.created < before.value)
    case MarkUndeliverable(live) => live != {} && m.state == Queued && Dead(m, live)
    case AutoArchive(age, now) => m.state == Undeliverable && m.created < now - age && m.archived.None?
    case ArchiveRetired(boxes, age, _, now) =>
      m.mailbox in boxes && m.state in {Queued, Undeliverable} && m.created < now - age && m.archived.None?
    case Rename(from, _) => m.mailbox == from
    case Republish(_, _, _, digest) => m.digest == Some(digest)
  }

  /** What it makes of such a row. */
  function Rewritten(c: Call, m: Message): Message {
    match c
    case ReadBox(_, _, _, now) => m.(state := Read, read := Some(now))
    case MarkRead(_, now) => m.(state := Read, read := Some(now))
    case Archive(_, _, _, now) => m.(state := Archived, archived := Some(now), read := OrElse(m.read, now))
    case MarkUndeliverable(_) => m.(state := Undeliverable, reason := Some(GONE))
    case AutoArchive(_, now) => m.(state := Archived, archived := Some(now), reason := OrElse(m.reason, OLD))
    case ArchiveRetired(_, _, reason, now) =>
      m.(state := Archived, archived := Some(now), read := OrElse(m.read, now), reason := OrElse(m.reason, reason))
    case Rename(_, to) => m.(mailbox := to)
    case Republish(mailbox, pane, body, _) => Fresh(mailbox, pane, body, m.created, m.digest)
  }

  function Effect(c: Call, id: Id, m: Message): Message {
    if Hit(c, id, m) then Rewritten(c, m) else m
  }

  function Hits(ms: Table, c: Call): set<Id> {
    set id | id in ms && Hit(c, id, ms[id])
  }

  function Bulk(ms: Table, c: Call): (after: Table)
    ensures after.Keys == ms.Keys
  {
    map id | id in ms :: Effect(c, id, ms[id])
  }

  // ---------------------------------------------------------------- acknowledging and cancelling

  datatype Move = ToAcked | ToCancelled {
    predicate Allows(s: State) {
      s == Queued || (ToAcked? && s == Read)
    }

    function Moved(m: Message, now: int): Message {
      if ToAcked? then m.(state := Acked, acked := Some(now), read := OrElse(m.read, now))
      else m.(state := Cancelled, cancelled := Some(now))
    }
  }

  datatype Moves = Moves(ms: Table, changed: seq<Id>, error: Option<Error>)

  predicate Owned(m: Message, mailbox: Option<string>) {
    mailbox.Some? && mailbox.value != "" ==> Normalised(m.mailbox) == Normalised(mailbox.value)
  }

  /** One id of an `ack` or a `cancel`, after the ones before it. */
  function MoveOne(r: Moves, id: Id, move: Move, mailbox: Option<string>, now: int): Moves {
    if r.error.Some? then r
    else if id !in r.ms then r.(error := Some(NoMessage))
    else if !Owned(r.ms[id], mailbox) then r.(error := Some(WrongMailbox))
    else if !move.Allows(r.ms[id].state) then r
    else r.(ms := r.ms[id := move.Moved(r.ms[id], now)], changed := r.changed + [id])
  }

  /** The rows after an `ack` or a `cancel` of these ids, one by one; the first refusal ends it
      and leaves the rows before it moved. */
  function Transitioned(ms: Table, ids: seq<Id>, move: Move, mailbox: Option<string>, now: int): Moves
    decreases |ids|
  {
    if ids == [] then Moves(ms, [], None)
    else MoveOne(Transitioned(ms, ids[..|ids| - 1], move, mailbox, now), ids[|ids| - 1], move, mailbox, now)
  }

  /** After a refusal the remaining ids are not looked at. */
  lemma {:induction false} TransitionStops(ms: Table, ids: seq<Id>, n: nat, move: Move, mailbox: Option<string>,
                                           now: int)
    requires n <= |ids| && Transitioned(ms, ids[..n], move, mailbox, now).error.Some?
    ensures Transitioned(ms, ids, move, mailbox, now) == Transitioned(ms, ids[..n], move, mailbox, now)
    decreases |ids|
  {
    if n == |ids| {
      assert ids[..n] == ids;
    } else {
      var before := ids[..|ids| - 1];
      assert before[..n] == ids[..n];
      TransitionStops(ms, before, n, move, mailbox, now);
    }
  }

  /** Every row either stayed as it was or is one of the changed ones, moved once from an allowed
      state. */
  predicate MovedOnce(ms: Table, r: Moves, move: Move, mailbox: Option<string>, now: int) {
    && r.ms.Keys == ms.Keys && Distinct(r.changed)
    && (forall id :: id in r.changed ==> id in ms && Owned(ms[id], mailbox) && move.Allows(ms[id].state))
    && (forall id :: id in ms ==> r.ms[id] == if id in r.changed then move.Moved(ms[id], now) else ms[id])
  }

  /** Without a refusal the changed rows are exactly the named ones that were in an allowed state;
      a refusal is for a named row that is missing or somebody else's. */
  predicate MovedAll(ms: Table, ids: seq<Id>, r: Moves, move: Move, mailbox: Option<string>) {
    && (forall id :: id in r.changed ==> id in ids)
    && (r.error.None? ==> forall id :: id in ids ==>
          id in ms && Owned(ms[id], mailbox) && (move.Allows(ms[id].state) ==> id in r.changed))
    && (r.error.Some? ==> exists id :: id in ids && (id !in ms || !Owned(ms[id], mailbox)))
  }

  lemma MoveOneMovesAll(ms: Table, ids: seq<Id>, r: Moves, id: Id, move: Move, mailbox: Option<string>, now: int)
    requires MovedOnce(ms, r, move, mailbox, now) && MovedAll(ms, ids, r, move, mailbox)
    ensures MovedAll(ms, ids + [id], MoveOne(r, id, move, mailbox, now), move, mailbox)
  {
    var all := ids + [id];
    assert all[|ids|] == id && forall x :: x in all <==> x in ids || x == id;
    if id in ms {
      assert Owned(r.ms[id], mailbox) <==> Owned(ms[id], mailbox);
    }
    if r.error.Some? {
      var x :| x in ids && (x !in ms || !Owned(ms[x], mailbox));
      assert x in all;
    }
  }

  lemma {:induction false} TransitionMoves(ms: Table, ids: seq<Id>, move: Move, mailbox: Option<string>, now: int)
    ensures MovedOnce(ms, Transitioned(ms, ids, move, mailbox, now), move, mailbox, now)
    ensures MovedAll(ms, ids, Transitioned(ms, ids, move, mailbox, now), move, mailbox)
    decreases |ids|
  {
    if ids != [] {
      var before, id := ids[..|ids| - 1], ids[|ids| - 1];
      var r := Transitioned(ms, before, move, mailbox, now);
      TransitionMoves(ms, before, move, mailbox, now);
      MoveOneMovesAll(ms, before, r, id, move, mailbox, now);
      assert ids == before + [id];
    }
  }

  // ---------------------------------------------------------------- the life of a message

  predicate Edge(a: State, b: State) {
    || (a == Queued && b != Queued)
    || (a == Read && (b == Acked || b == Archived))
    || (a == Acked && b == Archived)
    || (a == Undeliverable && b == Archived)
  }

  function Rank(s: State): nat {
    match s
    case Queued => 0
    case Read | Cancelled | Undeliverable => 1
    case Acked => 2
    case Archived => 3
  }

  /** The stamps say which states the message has been through. */
  predicate Stamped(m: Message) {
    match m.state
    case Queued => m.read.None? && m.acked.None? && m.archived.None? && m.cancelled.None?
    case Read => m.read.Some? && m.acked.None? && m.archived.None? && m.cancelled.None?
    case Acked => m.read.Some? && m.acked.Some? && m.archived.None? && m.cancelled.None?
    case Cancelled => m.cancelled.Some? && m.read.None? && m.acked.None? && m.archived.None?
    case Undeliverable => m.read.None? && m.acked.None? && m.archived.None? && m.cancelled.None?
    case Archived => m.archived.Some? && m.cancelled.None? && (m.acked.Some? ==> m.read.Some?)
  }

  /** Stamps already given are not given again. */
  predicate KeepsStamps(m: Message, n: Message) {
    && n.created == m.created && n.digest == m.digest
    && (m.read.Some? ==> n.read == m.read) && (m.acked.Some? ==> n.acked == m.acked)
    && (m.archived.Some? ==> n.archived == m.archived) && (m.cancelled.Some? ==> n.cancelled == m.cancelled)
  }

  /** Outside re-publishing, a message stays in its state or moves along the life cycle, strictly
      upwards, and keeps every stamp it has. */
  predicate Ages(m: Message, n: Message) {
    && Stamped(n) && KeepsStamps(m, n)
    && (n.state == m.state || (Edge(m.state, n.state) && Rank(m.state) < Rank(n.state)))
    && (n.state == Queued ==> n.(mailbox := m.mailbox) == m)
  }

  /** Unread again, with the new body and the old place in the queue. */
  predicate Republished(m: Message, n: Message, body: string) {
    n.state == Queued && Stamped(n) && n.created == m.created && n.digest == m.digest && n.body == body
  }

  lemma EffectAges(c: Call, id: Id, m: Message)
    requires Stamped(m)
    ensures (c.Republish? && m.digest == Some(c.digest)) || Ages(m, Effect(c, id, m))
    ensures c.Republish? && m.digest == Some(c.digest) ==>
              Republished(m, Effect(c, id, m), c.body)
  {}

  // ---------------------------------------------------------------- which messages a read returns

  function Texts(ms: Table, ids: seq<Id>): (r: seq<Message>)
    requires forall i :: 0 <= i < |ids| ==> ids[i] in ms
    ensures |r| == |ids| && forall i :: 0 <= i < |ids| ==> r[i] == ms[ids[i]]
  {
    seq(|ids|, i requires 0 <= i < |ids| => ms[ids[i]])
  }

  predicate Waiting(ms: Table, mailbox: string, id: Id) {
    id in ms && ms[id].mailbox == mailbox && ms[id].state == Queued
  }

  /** The oldest waiting messages, oldest first, as many as the limit allows; a negative limit
      is none. */
  ghost predicate IsBatch(ms: Table, mailbox: string, limit: int, batch: seq<Id>) {
    && Distinct(batch)
    && (forall i :: 0 <= i < |batch| ==> Waiting(ms, mailbox, batch[i]))
    && (forall i, j :: 0 <= i < j < |batch| ==> ms[batch[i]].created <= ms[batch[j]].created)
    && (limit >= 0 ==> |batch| <= limit)
    && (forall id :: id in ms && Waiting(ms, mailbox, id) && id !in batch ==>
          |batch| == limit && forall i :: 0 <= i < |batch| ==> ms[batch[i]].created <= ms[id].created)
  }
}
