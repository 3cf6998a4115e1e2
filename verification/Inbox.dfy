/** The inbox as the daemon calls it: every call changes the database exactly as `MailStore.After`
    says, one statement at a time. */
module Inbox {
  import opened Collections
  import opened Wrappers
  import opened Text
  import opened Mail
  import opened MailStore

  /** Some member of a non-empty set of messages is at least as old as all of them. */
  lemma {:induction false} OldestExists(ms: Table, ids: set<Id>)
    requires ids <= ms.Keys && ids != {}
    ensures exists id :: id in ids && forall o :: o in ids ==> ms[id].created <= ms[o].created
    decreases |ids|
  {
    var x := SomeMember(ids);
    var rest := ids - {x};
    if rest != {} {
      OldestExists(ms, rest);
      var y :| y in rest && forall o :: o in rest ==> ms[y].created <= ms[o].created;
      var z := if ms[x].created <= ms[y].created then x else y;
      assert z in ids && forall o :: o in ids ==> o == x || o in rest;
    } else {
      assert ids == rest + {x};
    }
  }

  /** The UPDATE of `mark_undeliverable` on these rows. */
  function Undelivered(ms: Table, ids: set<Id>): Table {
    map id | id in ms :: if id in ids then ms[id].(state := Undeliverable, reason := Some(GONE)) else ms[id]
  }

  /** Part of the way through a batch: what is picked is older than what is left. */
  predicate Picking(ms: Table, mailbox: string, batch: seq<Id>, todo: set<Id>) {
    && Distinct(batch) && todo <= ms.Keys
    && (forall i :: 0 <= i < |batch| ==> Waiting(ms, mailbox, batch[i]) && batch[i] !in todo)
    && (forall id :: id in ms && Waiting(ms, mailbox, id) ==> id in todo || id in batch)
    && (forall id :: id in todo ==> Waiting(ms, mailbox, id))
    && (forall i, j :: 0 <= i < j < |batch| ==> ms[batch[i]].created <= ms[batch[j]].created)
    && (forall i, id :: 0 <= i < |batch| && id in todo ==> ms[batch[i]].created <= ms[id].created)
  }

  function ByPane(ms: Table, live: set<string>): set<Id> {
    set id | id in ms && ms[id].state == Queued && ms[id].pane.Some? && ms[id].pane.value !in live
  }

  function ByBox(ms: Table, live: set<string>): set<Id> {
    set id | id in ms && ms[id].state == Queued && PaneMailbox(ms[id].mailbox) && ms[id].mailbox !in live
  }

  /** The second update finds what the first has left, and together they are the whole. */
  lemma GoneInTwoSteps(ms: Table, live: set<string>)
    requires live != {}
    ensures var first := ByPane(ms, live);
            var half := Undelivered(ms, first);
            var second := ByBox(half, live);
            && first !! second && first + second == Hits(ms, MarkUndeliverable(live))
            && Undelivered(half, second) == Bulk(ms, MarkUndeliverable(live))
  {
    var first := ByPane(ms, live);
    var half := Undelivered(ms, first);
    var second := ByBox(half, live);
    forall id | id in ms
      ensures id in second <==>
                id !in first && ms[id].state == Queued && PaneMailbox(ms[id].mailbox) && ms[id].mailbox !in live
    {}
    forall id | id in ms ensures id in first + second <==> Hit(MarkUndeliverable(live), id, ms[id]) {}
    assert first + second == Hits(ms, MarkUndeliverable(live));
    forall id | id in ms ensures Undelivered(half, second)[id] == Effect(MarkUndeliverable(live), id, ms[id]) {}
  }

  /** The mailboxes that the caller's own check lets through; inside somebody else's transaction none. */
  function Permitted(boxes: set<string>, authorized: Option<set<string>>, inTransaction: bool): set<string> {
    if authorized.None? then boxes else if inTransaction then {} else boxes * authorized.value
  }

  function Given(reason: Option<string>): string {
    if reason.Some? && reason.value != "" then reason.value else RETIRED
  }

  /** Retired mail is archived by its age in the mailboxes asked for, if nobody else has to be asked, and
      in those both asked for and let through, if somebody has; never inside another transaction then.
      An empty reason is none. */
  lemma RetiredExactly(ms: Table, boxes: set<string>, age: int, reason: Option<string>, authorized: Option<set<string>>,
                       inTransaction: bool, now: int, id: Id)
    requires id in ms && Stamped(ms[id])
    ensures var m := ms[id];
            Bulk(ms, ArchiveRetired(Permitted(boxes, authorized, inTransaction), age, Given(reason), now))[id]
            == if m.mailbox in boxes && (authorized.Some? ==> !inTransaction && m.mailbox in authorized.value)
                  && (m.state == Queued || m.state == Undeliverable) && m.created < now - age
               then m.(state := State.Archived, archived := Some(now),
                       read := if m.read.Some? then m.read else Some(now),
                       reason := if m.reason.Some? then m.reason
                                 else if reason.None? || reason == Some("") then Some("mailbox of a retired pane")
                                 else reason)
               else m
  {
    hide Matches, PaneMailbox;
  }

  class Inbox {
    var messages: Table
    var counter: nat
    var attachments: seq<Attachment>
    var blobs: seq<Content>
    const limits: Limits

    function Now(): Store
      reads this
    {
      Store(messages, counter, attachments, blobs)
    }

    constructor (limits: Limits := LIMITS)
      ensures Now() == EMPTY && this.limits == limits
    {
      messages, counter, attachments, blobs := map[], 0, [], [];
      this.limits := limits;
    }

    /** The total size of the stored files. */
    method BlobBytes() returns (total: nat)
      ensures total == Total(blobs)
    {
      total := 0;
      for n := 0 to |blobs|
        invariant total == Total(blobs[..n])
      {
        assert blobs[..n + 1][..n] == blobs[..n];
        total := total + |blobs[n]|;
      }
      assert blobs[..|blobs|] == blobs;
    }

    method StoreBlob(f: File) returns (error: Option<Error>)
      modifies this`blobs
      ensures Kept(blobs, error) == KeepOne(Kept(old(blobs), None), f, limits)
    {
      if f.Absent? {
        return Some(NoFile);
      }
      if |f.content| > limits.file {
        return Some(FileTooBig);
      }
      if f.content !in blobs {
        var total := BlobBytes();
        if total + |f.content| > limits.total {
          return Some(StoreFull);
        }
        blobs := blobs + [f.content];
      }
      error := None;
    }

    /** The files of a message, in order, up to the first refusal. */
    method StoreBlobs(files: seq<File>) returns (error: Option<Error>)
      modifies this`blobs
      ensures Kept(blobs, error) == KeepFiles(old(blobs), files, limits)
    {
      error := None;
      var n := 0;
      while n < |files| && error.None?
        invariant n <= |files| && Kept(blobs, error) == KeepFiles(old(blobs), files[..n], limits)
      {
        assert files[..n + 1][..n] == files[..n];
        error := StoreBlob(files[n]);
        n := n + 1;
      }
      if error.Some? {
        RefusalStands(old(blobs), files, n, limits);
      }
      assert files[..|files|] == files;
    }

    /** Drops the stored files that no message refers to any more. */
    method CollectBlobs()
      modifies this`blobs
      ensures blobs == Collected(old(blobs), attachments)
    {
      var found := blobs;
      blobs := [];
      for n := 0 to |found|
        invariant blobs == Collected(found[..n], attachments)
      {
        assert found[..n + 1][..n] == found[..n];
        if Uses(attachments, found[n]) {
          blobs := blobs + [found[n]];
        }
      }
      assert found[..|found|] == found;
    }

    /** `send` */
    method SendMessage(mailbox: string, pane: Option<string>, body: string, files: seq<File>, now: int)
      returns (r: Result<Id, Error>)
      modifies this
      ensures var q := Send(mailbox, pane, body, files, now);
              && Now() == After(old(Now()), q, limits)
              && (Refusal(q).Some? ==> r == Err(Refusal(q).value))
              && (Refusal(q).None? ==>
                    var error := KeepFiles(old(blobs), files, limits).error;
                    r == if error.Some? then Err(error.value) else Ok(Sent(old(counter) + 1)))
    {
      var box := Strip(mailbox);
      if box == "" {
        return Err(NeedsMailbox);
      }
      if Bytes(body) > MAX_BODY_BYTES {
        return Err(BodyTooBig);
      }
      if Strip(body) == "" && files == [] {
        return Err(NeedsBody);
      }
      var error := StoreBlobs(files);
      if error.Some? {
        return Err(error.value);
      }
      counter := counter + 1;
      messages := messages[Sent(counter) := Fresh(box, pane, body, now, None)];
      attachments := attachments + Attached(Sent(counter), files);
      r := Ok(Sent(counter));
    }

    method HolderOf(digest: string) returns (holder: Option<Id>)
      ensures holder.Some? <==> HasDigest(messages, digest)
      ensures holder.Some? ==> holder.value in messages && messages[holder.value].digest == Some(digest)
    {
      var holders := set id | id in messages && messages[id].digest == Some(digest);
      if holders == {} {
        forall id | id in messages ensures messages[id].digest != Some(digest) {
          assert id !in holders;
        }
        return None;
      }
      ghost var some := SomeMember(holders);
      var id :| id in holders;
      holder := Some(id);
    }

    /** `upsert_digest` */
    method UpsertDigest(mailbox: string, pane: Option<string>, body: string, digest: string, now: int)
      returns (r: Result<Id, Error>)
      modifies this
      ensures Now() == After(old(Now()), Digest(mailbox, pane, body, digest, now), limits)
      ensures r == Err(NeedsBody) <==> Strip(body) == ""
      ensures r == Err(BodyTooBig) <==> Strip(body) != "" && Bytes(body) > MAX_BODY_BYTES
      ensures r.Ok? ==>
                r.value in messages && messages[r.value].digest == Some(digest) && messages[r.value].state == Queued
      ensures r.Ok? && !HasDigest(old(messages), digest) ==> r.value == Sent(old(counter) + 1)
    {
      if Strip(body) == "" {
        return Err(NeedsBody);
      }
      if Bytes(body) > MAX_BODY_BYTES {
        return Err(BodyTooBig);
      }
      var holder := HolderOf(digest);
      if holder.Some? {
        messages := Bulk(messages, Call.Republish(mailbox, pane, body, digest));
        return Ok(holder.value);
      }
      counter := counter + 1;
      messages := messages[Sent(counter) := Fresh(mailbox, pane, body, now, Some(digest))];
      r := Ok(Sent(counter));
    }

    /** `ensure_next_job`: the id was chosen with the lease; an existing message is never replaced. */
    method EnsureNextJobMessage(id: Id, mailbox: string, place: string, body: string, now: int)
      returns (r: Result<Message, Error>)
      modifies this
      ensures Now() == After(old(Now()), EnsureNextJob(id, mailbox, place, body, now), limits)
      ensures r == Err(NotNextJob) <==> id.Sent?
      ensures id.NextJob? ==>
                id in messages && r == (if messages[id].pane == Some(place) && messages[id].mailbox == mailbox
                                        then Ok(messages[id]) else Err(RecipientChanged))
    {
      if id.Sent? {
        return Err(NotNextJob);
      }
      if id !in messages {
        messages := messages[id := Fresh(mailbox, Some(place), body, now, None)];
      }
      if messages[id].pane != Some(place) || messages[id].mailbox != mailbox {
        return Err(RecipientChanged);
      }
      r := Ok(messages[id]);
    }

    /** The query of a read: the oldest waiting messages, oldest first. */
    method Oldest(mailbox: string, limit: int) returns (batch: seq<Id>)
      ensures IsBatch(messages, mailbox, limit, batch)
    {
      batch := [];
      var todo := set id | id in messages && Waiting(messages, mailbox, id);
      while todo != {} && (limit < 0 || |batch| < limit)
        invariant Picking(messages, mailbox, batch, todo) && (limit >= 0 ==> |batch| <= limit)
        decreases todo
      {
        OldestExists(messages, todo);
        var id :| id in todo && forall o :: o in todo ==> messages[id].created <= messages[o].created;
        batch := batch + [id];
        todo := todo - {id};
      }
    }

    /** `read`: the front of the queue, marked read unless the caller only looks. */
    method Read(mailbox: string, limit: int, peek: bool, mark: bool, now: int)
      returns (batch: seq<Id>, texts: seq<Message>, files: seq<seq<Attachment>>)
      modifies this`messages
      ensures IsBatch(old(messages), mailbox, limit, batch)
      ensures Now() == After(old(Now()), Update(ReadBox(mailbox, batch, !peek && mark, now)), limits)
      ensures |texts| == |batch| && forall i :: 0 <= i < |batch| ==>
                batch[i] in messages && texts[i] == messages[batch[i]]
      ensures |files| == |batch| && forall i :: 0 <= i < |batch| ==> files[i] == Of(attachments, batch[i])
    {
      batch := Oldest(mailbox, limit);
      assert forall i :: 0 <= i < |batch| ==> Waiting(messages, mailbox, batch[i]);
      messages := Bulk(messages, ReadBox(mailbox, batch, !peek && mark, now));
      texts := Texts(messages, batch);
      files := seq(|batch|, i requires 0 <= i < |batch| reads this => Of(attachments, batch[i]));
    }

    /** `mark_read`: only what is still unread moves. */
    method MarkReadIds(ids: seq<Id>, now: int) returns (moved: nat)
      modifies this`messages
      ensures Now() == After(old(Now()), Update(MarkRead(ids, now)), limits)
      ensures moved == |set id | id in old(messages) && id in ids && old(messages)[id].state == Queued|
    {
      var hit := set id | id in messages && id in ids && messages[id].state == Queued;
      messages := Bulk(messages, MarkRead(ids, now));
      moved := |hit|;
    }

    method MoveRow(id: Id, move: Move, owner: Option<string>, now: int, ghost changed: seq<Id>)
      returns (moved: bool, error: Option<Error>)
      modifies this`messages
      ensures Moves(messages, if moved then changed + [id] else changed, error)
              == MoveOne(Moves(old(messages), changed, None), id, move, owner, now)
    {
      moved := false;
      if id !in messages {
        return false, Some(NoMessage);
      }
      if !Owned(messages[id], owner) {
        return false, Some(WrongMailbox);
      }
      if move.Allows(messages[id].state) {
        messages, moved := messages[id := move.Moved(messages[id], now)], true;
      }
      error := None;
    }

    /** `ack` and `cancel`: row by row, up to the first refusal. */
    method Transition(ids: seq<Id>, move: Move, owner: Option<string>, now: int) returns (r: Result<seq<Id>, Error>)
      modifies this`messages
      ensures Now() == After(old(Now()), Request.Transition(ids, move, owner, now), limits)
      ensures r == (var t := Transitioned(old(messages), ids, move, owner, now);
                    if ids == [] then Err(NeedsId) else if t.error.Some? then Err(t.error.value) else Ok(t.changed))
    {
      if ids == [] {
        return Err(NeedsId);
      }
      ghost var before := messages;
      var changed: seq<Id>, error: Option<Error> := [], None;
      var n := 0;
      while n < |ids| && error.None?
        invariant n <= |ids|
        invariant Moves(messages, changed, error) == Transitioned(before, ids[..n], move, owner, now)
      {
        assert ids[..n + 1][..n] == ids[..n];
        var moved;
        moved, error := MoveRow(ids[n], move, owner, now, changed);
        changed := if moved then changed + [ids[n]] else changed;
        n := n + 1;
      }
      if error.Some? {
        TransitionStops(before, ids, n, move, owner, now);
        return Err(error.value);
      }
      assert ids[..|ids|] == ids;
      r := Ok(changed);
    }

    /** `archive`: the named states are filtered, and an empty choice is refused. */
    method ArchiveBox(mailbox: string, states: Option<set<State>>, before: Option<int>, now: int)
      returns (error: Option<Error>)
      modifies this`messages
      ensures var chosen := if states.Some? then states.value else {Queued, Acked};
              && (Strip(mailbox) == "" <==> error == Some(NeedsMailbox))
              && (Strip(mailbox) != "" && chosen * {Queued, State.Read, Acked} == {} <==> error == Some(NeedsState))
              && Now() == if error.Some? then old(Now())
                          else After(old(Now()), Update(Call.Archive(Strip(mailbox), chosen, before, now)), limits)
    {
      var box := Strip(mailbox);
      if box == "" {
        return Some(NeedsMailbox);
      }
      var chosen := if states.Some? then states.value else {Queued, Acked};
      if chosen * {Queued, State.Read, Acked} == {} {
        return Some(NeedsState);
      }
      messages := Bulk(messages, Call.Archive(box, chosen, before, now));
      error := None;
    }

    /** `mark_undeliverable`: first the messages whose pane is gone, then those in a mailbox that
        is itself the id of a pane that is gone; nothing when no live pane is known. */
    method MarkGone(panes: set<string>) returns (changed: nat)
      modifies this`messages
      ensures Now() == After(old(Now()), Update(MarkUndeliverable(panes - {""})), limits)
      ensures changed == |Hits(old(messages), MarkUndeliverable(panes - {""}))|
    {
      var live := panes - {""};
      ghost var before, call := messages, MarkUndeliverable(live);
      if live == {} {
        assert Bulk(messages, call) == messages && Hits(messages, call) == {};
        return 0;
      }
      var first := ByPane(messages, live);
      messages := Undelivered(messages, first);
      var second := ByBox(messages, live);
      messages := Undelivered(messages, second);
      changed := |first| + |second|;
      GoneInTwoSteps(before, live);
      assert |first + second| == |first| + |second|;
    }

    /** `auto_archive_undeliverable` */
    method AutoArchiveOld(age: int, now: int) returns (changed: nat)
      modifies this`messages
      ensures Now() == After(old(Now()), Update(AutoArchive(age, now)), limits)
      ensures changed == |Hits(old(messages), AutoArchive(age, now))|
    {
      changed := |Hits(messages, AutoArchive(age, now))|;
      messages := Bulk(messages, AutoArchive(age, now));
    }

    /** `archive_retired`: nothing without a mailbox; a reason already given stays.  `authorized` is the
        answer of the caller's own check, if it brought one, which is asked in a transaction of the call. */
    method ArchiveRetiredBoxes(boxes: set<string>, age: int, reason: Option<string>, authorized: Option<set<string>>,
                               inTransaction: bool, now: int) returns (changed: nat)
      modifies this`messages
      ensures var c := ArchiveRetired(Permitted(boxes, authorized, inTransaction), age, Given(reason), now);
              Now() == After(old(Now()), Update(c), limits) && changed == |Hits(old(messages), c)|
    {
      ghost var c := ArchiveRetired(Permitted(boxes, authorized, inTransaction), age, Given(reason), now);
      var left := boxes;
      if boxes != {} && authorized.Some? {
        left := if inTransaction then {} else boxes * authorized.value;
      }
      if left == {} {
        assert Bulk(messages, c) == messages && Hits(messages, c) == {};
        return 0;
      }
      changed := |Hits(messages, ArchiveRetired(left, age, Given(reason), now))|;
      messages := Bulk(messages, ArchiveRetired(left, age, Given(reason), now));
    }

    /** `rename_mailbox` */
    method RenameMailbox(from: string, to: string) returns (moved: nat)
      modifies this`messages
      ensures Now() == After(old(Now()), Update(Rename(from, to)), limits)
      ensures moved == |set id | id in old(messages) && old(messages)[id].mailbox == from|
    {
      var hit := set id | id in messages && messages[id].mailbox == from;
      moved := |hit|;
      messages := Bulk(messages, Rename(from, to));
    }

    method Drop(gone: set<Id>)
      modifies this
      ensures Now() == Dropped(old(Now()), gone)
    {
      attachments := Without(attachments, gone);
      messages := messages - gone;
      CollectBlobs();
    }

    /** `delete`: all or nothing. */
    method DeleteIds(ids: seq<Id>) returns (error: Option<Error>)
      modifies this
      ensures Now() == After(old(Now()), Delete(ids), limits)
      ensures error == if ids == [] then Some(NeedsId)
                       else if exists id :: id in ids && id !in old(messages) then Some(NoMessage) else None
    {
      if ids == [] {
        return Some(NeedsId);
      }
      for n := 0 to |ids|
        invariant forall k :: 0 <= k < n ==> ids[k] in messages
      {
        if ids[n] !in messages {
          return Some(NoMessage);
        }
      }
      Drop(Ids(ids));
      error := None;
    }

    /** `purge`: read, acknowledged, cancelled, archived and undeliverable mail past its time. */
    method PurgeOld(retention: int, now: int) returns (purged: nat)
      modifies this
      ensures Now() == After(old(Now()), Purge(retention, now), limits)
      ensures purged == |Stale(old(messages), now - retention)|
    {
      var gone := Stale(messages, now - retention);
      if gone != {} {
        Drop(gone);
      }
      purged := |gone|;
    }
  }
}
