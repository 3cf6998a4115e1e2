/** The inbox database and its attachment store, over whole runs of calls. */
module MailStore {
  import opened Collections
  import opened Wrappers
  import opened Text
  import opened Mail

  /** A file's bytes stand for their own SHA-256: equal names exactly for equal contents. */
  type Content = seq<bv8>

  datatype File = Absent | File(name: string, content: Content)

  datatype Attachment = Attachment(message: Id, index: nat, name: string, content: Content)

  datatype Store = Store(messages: Table, counter: nat, attachments: seq<Attachment>, blobs: seq<Content>)

  /** The per-file and the total ceiling. */
  datatype Limits = Limits(file: nat, total: nat)

  const LIMITS := Limits(64 * 1024 * 1024, 2 * 1024 * 1024 * 1024)

  const EMPTY := Store(map[], 0, [], [])

  // ---------------------------------------------------------------- blobs

  function Total(blobs: seq<Content>): nat {
    if blobs == [] then 0 else Total(blobs[..|blobs| - 1]) + |blobs[|blobs| - 1]|
  }

  datatype Kept = Kept(blobs: seq<Content>, error: Option<Error>)

  /** One file of a `send`, after the ones before it. */
  function KeepOne(k: Kept, f: File, limits: Limits): Kept {
    if k.error.Some? then k
    else if f.Absent? then k.(error := Some(NoFile))
    else if |f.content| > limits.file then k.(error := Some(FileTooBig))
    else if f.content in k.blobs then k
    else if Total(k.blobs) + |f.content| > limits.total then k.(error := Some(StoreFull))
    else k.(blobs := k.blobs + [f.content])
  }

  /** The blobs after storing these files one by one; the first refusal ends it and leaves the
      files before it stored. */
  function KeepFiles(blobs: seq<Content>, files: seq<File>, limits: Limits): Kept
    decreases |files|
  {
    if files == [] then Kept(blobs, None)
    else KeepOne(KeepFiles(blobs, files[..|files| - 1], limits), files[|files| - 1], limits)
  }

  /** After a refusal the remaining files are not looked at. */
  lemma {:induction false} RefusalStands(blobs: seq<Content>, files: seq<File>, n: nat, limits: Limits)
    requires n <= |files| && KeepFiles(blobs, files[..n], limits).error.Some?
    ensures KeepFiles(blobs, files, limits) == KeepFiles(blobs, files[..n], limits)
    decreases |files|
  {
    if n == |files| {
      assert files[..n] == files;
    } else {
      var before := files[..|files| - 1];
      assert before[..n] == files[..n];
      RefusalStands(blobs, before, n, limits);
    }
  }

  predicate Uses(attachments: seq<Attachment>, c: Content) {
    exists i :: 0 <= i < |attachments| && attachments[i].content == c
  }

  /** The blobs some attachment still names. */
  function Collected(blobs: seq<Content>, attachments: seq<Attachment>): seq<Content> {
    if blobs == [] then []
    else
      var rest, last := Collected(blobs[..|blobs| - 1], attachments), blobs[|blobs| - 1];
      if Uses(attachments, last) then rest + [last] else rest
  }

  /** The attachments of the messages that are not gone. */
  function Without(attachments: seq<Attachment>, gone: set<Id>): seq<Attachment> {
    if attachments == [] then []
    else
      var rest, last := Without(attachments[..|attachments| - 1], gone), attachments[|attachments| - 1];
      if last.message in gone then rest else rest + [last]
  }

  function Of(attachments: seq<Attachment>, id: Id): seq<Attachment> {
    if attachments == [] then []
    else
      var rest, last := Of(attachments[..|attachments| - 1], id), attachments[|attachments| - 1];
      if last.message == id then rest + [last] else rest
  }

  function Attached(id: Id, files: seq<File>): (r: seq<Attachment>)
    ensures |r| == |files|
    ensures forall i :: 0 <= i < |files| && files[i].File? ==>
              r[i] == Attachment(id, i + 1, files[i].name, files[i].content)
    ensures forall i :: 0 <= i < |files| ==> r[i].message == id
  {
    seq(|files|, i requires 0 <= i < |files| =>
      if files[i].File? then Attachment(id, i + 1, files[i].name, files[i].content) else Attachment(id, i + 1, "", []))
  }

  // ---------------------------------------------------------------- calls

  datatype Request =
    | Send(mailbox: string, pane: Option<string>, body: string, files: seq<File>, now: int)
    | Digest(mailbox: string, pane: Option<string>, body: string, digest: string, now: int)
    | EnsureNextJob(id: Id, mailbox: string, place: string, body: string, now: int)
    | Update(call: Call)
    | Transition(ids: seq<Id>, move: Move, owner: Option<string>, now: int)
    | Delete(ids: seq<Id>)
    | Purge(retention: int, now: int)

  /** What is wrong with a `send` before any file is looked at. */
  function Refusal(q: Request): Option<Error>
    requires q.Send?
  {
    if Strip(q.mailbox) == "" then Some(NeedsMailbox)
    else if Bytes(q.body) > MAX_BODY_BYTES then Some(BodyTooBig)
    else if Strip(q.body) == "" && q.files == [] then Some(NeedsBody)
    else None
  }

  /** When the message last changed, as the retention reads it. */
  function LastTouched(m: Message): int {
    if m.acked.Some? then m.acked.value else if m.cancelled.Some? then m.cancelled.value
    else if m.read.Some? then m.read.value else if m.archived.Some? then m.archived.value else m.created
  }

  function Stale(ms: Table, cutoff: int): set<Id> {
    set id | id in ms && ms[id].state != Queued && LastTouched(ms[id]) < cutoff
  }

  function Dropped(s: Store, gone: set<Id>): Store {
    var left := Without(s.attachments, gone);
    s.(messages := s.messages - gone, attachments := left, blobs := Collected(s.blobs, left))
  }

  function Ids(ids: seq<Id>): set<Id> {
    set id | id in ids
  }

  predicate HasDigest(ms: Table, digest: string) {
    exists id :: id in ms && ms[id].digest == Some(digest)
  }

  function AfterSend(s: Store, q: Request, limits: Limits): Store
    requires q.Send?
  {
    if Refusal(q).Some? then s
    else
      var kept := KeepFiles(s.blobs, q.files, limits);
      if kept.error.Some? then s.(blobs := kept.blobs)
      else
        var id := Sent(s.counter + 1);
        Store(s.messages[id := Fresh(Strip(q.mailbox), q.pane, q.body, q.now, None)], s.counter + 1,
              s.attachments + Attached(id, q.files), kept.blobs)
  }

  function AfterDigest(s: Store, q: Request): Store
    requires q.Digest?
  {
    if Strip(q.body) == "" || Bytes(q.body) > MAX_BODY_BYTES then s
    else if HasDigest(s.messages, q.digest)
    then s.(messages := Bulk(s.messages, Republish(q.mailbox, q.pane, q.body, q.digest)))
    else s.(messages := s.messages[Sent(s.counter + 1) := Fresh(q.mailbox, q.pane, q.body, q.now, Some(q.digest))],
            counter := s.counter + 1)
  }

  /** The database after a call, refused or not. */
  function After(s: Store, q: Request, limits: Limits): Store {
    match q
    case Send(_, _, _, _, _) => AfterSend(s, q, limits)
    case Digest(_, _, _, _, _) => AfterDigest(s, q)
    case EnsureNextJob(id, mailbox, place, body, now) =>
      if id.Sent? || id in s.messages then s
      else s.(messages := s.messages[id := Fresh(mailbox, Some(place), body, now, None)])
    case Update(c) => s.(messages := Bulk(s.messages, c))
    case Transition(ids, move, owner, now) => s.(messages := Transitioned(s.messages, ids, move, owner, now).ms)
    case Delete(ids) => if ids == [] || exists id :: id in ids && id !in s.messages then s else Dropped(s, Ids(ids))
    case Purge(retention, now) =>
      var gone := Stale(s.messages, now - retention);
      if gone == {} then s else Dropped(s, gone)
  }

  /** What the database promises of a read: the oldest waiting messages.  Re-publishing happens
      only through `Digest`. */
  ghost predicate Possible(s: Store, q: Request) {
    q.Update? ==>
      && !q.call.Republish?
      && (q.call.ReadBox? ==> exists limit :: IsBatch(s.messages, q.call.mailbox, limit, q.call.batch))
  }

  // ---------------------------------------------------------------- what always holds

  predicate MailSound(ms: Table, counter: nat) {
    && (forall id :: id in ms ==> Stamped(ms[id]))
    && (forall id :: id in ms && id.Sent? ==> id.number <= counter)
    && (forall a, b :: a in ms && b in ms && ms[a].digest.Some? && ms[a].digest == ms[b].digest ==> a == b)
  }

  predicate BlobsSound(s: Store, limits: Limits) {
    && Distinct(s.blobs) && Total(s.blobs) <= limits.total
    && (forall i :: 0 <= i < |s.attachments| ==>
          s.attachments[i].message in s.messages && s.attachments[i].content in s.blobs
          && |s.attachments[i].content| <= limits.file)
  }

  predicate Sound(s: Store, limits: Limits) {
    MailSound(s.messages, s.counter) && BlobsSound(s, limits)
  }

  /** Nothing is stored that no message refers to. */
  predicate Exact(s: Store) {
    forall c :: c in s.blobs ==> Uses(s.attachments, c)
  }

  // ---------------------------------------------------------------- blobs are kept

  predicate Held(blobs: seq<Content>, f: File, limits: Limits) {
    f.File? && f.content in blobs && |f.content| <= limits.file
  }

  /** The store stays within its ceiling and keeps what it had. */
  lemma {:induction false} KeepFilesFits(blobs: seq<Content>, files: seq<File>, limits: Limits)
    requires Distinct(blobs) && Total(blobs) <= limits.total
    ensures var k := KeepFiles(blobs, files, limits);
            Distinct(k.blobs) && Total(k.blobs) <= limits.total && blobs <= k.blobs
    decreases |files|
  {
    if files != [] {
      KeepFilesFits(blobs, files[..|files| - 1], limits);
      var k := KeepFiles(blobs, files[..|files| - 1], limits);
      var next := KeepOne(k, files[|files| - 1], limits);
      if next.blobs != k.blobs {
        assert next.blobs[..|k.blobs|] == k.blobs;
      }
    }
  }

  /** Without a refusal every file is held. */
  lemma {:induction false} KeepFilesHolds(blobs: seq<Content>, files: seq<File>, limits: Limits, i: nat)
    requires i < |files| && KeepFiles(blobs, files, limits).error.None?
    ensures Held(KeepFiles(blobs, files, limits).blobs, files[i], limits)
    decreases |files|
  {
    var n := |files| - 1;
    var k := KeepFiles(blobs, files[..n], limits);
    if i < n {
      KeepFilesHolds(blobs, files[..n], limits, i);
      assert files[..n][i] == files[i];
      assert forall c :: c in k.blobs ==> c in KeepOne(k, files[n], limits).blobs;
    } else {
      var next := KeepOne(k, files[n], limits);
      if next.blobs != k.blobs { assert next.blobs[|k.blobs|] == files[n].content; }
    }
  }

  predicate Among(files: seq<File>, c: Content) {
    exists i :: 0 <= i < |files| && files[i].File? && files[i].content == c
  }

  /** Nothing but these files is added. */
  lemma {:induction false} KeepFilesOnly(blobs: seq<Content>, files: seq<File>, limits: Limits, c: Content)
    requires c in KeepFiles(blobs, files, limits).blobs
    ensures c in blobs || Among(files, c)
    decreases |files|
  {
    if files != [] {
      var n := |files| - 1;
      if c in KeepFiles(blobs, files[..n], limits).blobs {
        KeepFilesOnly(blobs, files[..n], limits, c);
        if c !in blobs {
          var i :| 0 <= i < n && files[..n][i].File? && files[..n][i].content == c;
          assert files[i].content == c;
        }
      } else {
        assert files[n].content == c;
      }
    }
  }

  lemma {:induction false} CollectedSound(blobs: seq<Content>, attachments: seq<Attachment>)
    requires Distinct(blobs)
    ensures var r := Collected(blobs, attachments);
            && Distinct(r) && Total(r) <= Total(blobs)
            && (forall c :: c in r <==> c in blobs && Uses(attachments, c))
    decreases |blobs|
  {
    if blobs != [] {
      var before, last := blobs[..|blobs| - 1], blobs[|blobs| - 1];
      CollectedSound(before, attachments);
      assert blobs == before + [last];
      assert last !in before;
      var rest := Collected(before, attachments);
      assert (rest + [last])[..|rest|] == rest;
    }
  }

  lemma {:induction false} WithoutKeeps(attachments: seq<Attachment>, gone: set<Id>, id: Id)
    ensures forall a :: a in Without(attachments, gone) <==> a in attachments && a.message !in gone
    ensures id !in gone ==> Of(Without(attachments, gone), id) == Of(attachments, id)
    decreases |attachments|
  {
    if attachments != [] {
      var before, last := attachments[..|attachments| - 1], attachments[|attachments| - 1];
      WithoutKeeps(before, gone, id);
      assert attachments == before + [last];
      var rest := Without(before, gone);
      assert (rest + [last])[..|rest|] == rest;
    }
  }

  lemma {:induction false} OfAppended(attachments: seq<Attachment>, more: seq<Attachment>, id: Id)
    requires forall i :: 0 <= i < |more| ==> more[i].message != id
    ensures Of(attachments + more, id) == Of(attachments, id)
    decreases |more|
  {
    if more == [] {
      assert attachments + more == attachments;
    } else {
      var all := attachments + more;
      assert all[..|all| - 1] == attachments + more[..|more| - 1];
      OfAppended(attachments, more[..|more| - 1], id);
    }
  }

  // ---------------------------------------------------------------- one call

  /** The call brings a digest that was here before back to the unread mail. */
  predicate Republishes(s: Store, q: Request, id: Id) {
    && q.Digest? && Strip(q.body) != "" && Bytes(q.body) <= MAX_BODY_BYTES
    && id in s.messages && s.messages[id].digest == Some(q.digest)
  }

  lemma DigestAges(s: Store, q: Request, id: Id)
    requires q.Digest? && MailSound(s.messages, s.counter) && id in s.messages
    ensures id in AfterDigest(s, q).messages
    ensures var m, n := s.messages[id], AfterDigest(s, q).messages[id];
            if Republishes(s, q, id) then Republished(m, n, q.body) else Ages(m, n)
  {
    assert id.Sent? ==> id.number <= s.counter;
    EffectAges(Call.Republish(q.mailbox, q.pane, q.body, q.digest), id, s.messages[id]);
  }

  lemma UpdateAges(ms: Table, c: Call, id: Id)
    requires id in ms && Stamped(ms[id]) && !c.Republish?
    ensures id in Bulk(ms, c) && Ages(ms[id], Bulk(ms, c)[id])
  {
    EffectAges(c, id, ms[id]);
  }

  lemma TransitionAges(ms: Table, ids: seq<Id>, move: Move, owner: Option<string>, now: int, id: Id)
    requires id in ms && Stamped(ms[id])
    ensures id in Transitioned(ms, ids, move, owner, now).ms
    ensures Ages(ms[id], Transitioned(ms, ids, move, owner, now).ms[id])
  {
    TransitionMoves(ms, ids, move, owner, now);
    if move.Allows(ms[id].state) {
    }
  }

  /** Every call but a re-published digest leaves a message as it is, moves it strictly up its
      life cycle, or removes it. */
  lemma StepAges(s: Store, q: Request, limits: Limits, id: Id)
    requires MailSound(s.messages, s.counter) && Possible(s, q)
    requires id in s.messages && id in After(s, q, limits).messages
    ensures var m, n := s.messages[id], After(s, q, limits).messages[id];
            if Republishes(s, q, id) then Republished(m, n, q.body) else Ages(m, n)
  {
    hide LastTouched, Collected, Without, KeepFiles, Hit, Rewritten, Transitioned;
    var m := s.messages[id];
    match q
    case Send(_, _, _, _, _) => assert id.Sent? ==> id.number <= s.counter;
    case Digest(_, _, _, _, _) => DigestAges(s, q, id);
    case EnsureNextJob(_, _, _, _, _) =>
    case Update(c) => UpdateAges(s.messages, c, id);
    case Transition(ids, move, owner, now) => TransitionAges(s.messages, ids, move, owner, now, id);
    case Delete(_) =>
    case Purge(_, _) =>
  }

  /** A message new in the database: the next number of the counter, or the handoff's own id. */
  lemma StepAdds(s: Store, q: Request, limits: Limits, id: Id)
    requires MailSound(s.messages, s.counter) && Possible(s, q)
    requires id !in s.messages && id in After(s, q, limits).messages
    ensures var t := After(s, q, limits);
            && ((id == Sent(s.counter + 1) && t.counter == s.counter + 1)
                || (q.EnsureNextJob? && id == q.id && id.NextJob?))
            && t.messages[id].state == Queued && Stamped(t.messages[id])
            && (t.messages[id].digest.Some? ==>
                 q.Digest? && t.messages[id].digest == Some(q.digest) && !HasDigest(s.messages, q.digest))
  {
    if q.Transition? { TransitionMoves(s.messages, q.ids, q.move, q.owner, q.now); }
  }

  /** A purge drops only mail that was read, acknowledged or cancelled, as it says, if and only if no
      archived or undeliverable message is past its retention; those go as well, although archiving
      and marking as undeliverable promise to keep every row. */
  lemma PurgeIsAsDocumented(s: Store, retention: int, now: int, limits: Limits)
    ensures (forall id :: id in s.messages && id !in After(s, Purge(retention, now), limits).messages ==>
               s.messages[id].state in {Mail.Read, Mail.Acked, Mail.Cancelled})
            <==> (forall id :: id in s.messages && s.messages[id].state in {Mail.Archived, Mail.Undeliverable} ==>
                    LastTouched(s.messages[id]) >= now - retention)
  {
    hide LastTouched, Collected, Without;
    var t := After(s, Purge(retention, now), limits);
    forall id | id in s.messages
      ensures id !in t.messages <==>
                s.messages[id].state != Mail.Queued && LastTouched(s.messages[id]) < now - retention
    {}
  }

  lemma MailStaysSound(s: Store, q: Request, limits: Limits)
    requires MailSound(s.messages, s.counter) && Possible(s, q)
    ensures var t := After(s, q, limits); MailSound(t.messages, t.counter) && t.counter >= s.counter
  {
    var t := After(s, q, limits);
    forall id | id in t.messages
      ensures Stamped(t.messages[id]) && (id.Sent? ==> id.number <= t.counter)
      ensures t.messages[id].digest.Some? ==>
                if id in s.messages then s.messages[id].digest == t.messages[id].digest
                else q.Digest? && t.messages[id].digest == Some(q.digest) && !HasDigest(s.messages, q.digest)
    {
      if id in s.messages { StepAges(s, q, limits, id); } else { StepAdds(s, q, limits, id); }
    }
    forall a, b | a in t.messages && b in t.messages && t.messages[a].digest.Some?
                  && t.messages[a].digest == t.messages[b].digest
      ensures a == b
    {
      if a !in s.messages { StepAdds(s, q, limits, a); }
      if b !in s.messages { StepAdds(s, q, limits, b); }
    }
  }

  lemma DroppedSound(s: Store, gone: set<Id>, limits: Limits)
    requires BlobsSound(s, limits)
    ensures BlobsSound(Dropped(s, gone), limits) && Exact(Dropped(s, gone))
  {
    var t := Dropped(s, gone);
    CollectedSound(s.blobs, t.attachments);
    forall i | 0 <= i < |t.attachments|
      ensures t.attachments[i].message in t.messages && t.attachments[i].content in t.blobs
              && |t.attachments[i].content| <= limits.file
    {
      var a := t.attachments[i];
      WithoutKeeps(s.attachments, gone, a.message);
      assert a in t.attachments;
      assert Uses(t.attachments, a.content);
    }
  }

  lemma SentSound(s: Store, q: Request, limits: Limits)
    requires BlobsSound(s, limits) && q.Send?
    ensures BlobsSound(AfterSend(s, q, limits), limits)
  {
    var k := KeepFiles(s.blobs, q.files, limits);
    KeepFilesFits(s.blobs, q.files, limits);
    forall c | c in s.blobs ensures c in k.blobs {
      var i :| 0 <= i < |s.blobs| && s.blobs[i] == c;
      assert k.blobs[i] == c;
    }
    if k.error.None? {
      forall i | 0 <= i < |q.files| ensures Held(k.blobs, q.files[i], limits) {
        KeepFilesHolds(s.blobs, q.files, limits, i);
      }
    }
  }

  /** Whatever is called, every attachment's file is in the store and the store stays within its
      ceilings. */
  lemma BlobsStaySound(s: Store, q: Request, limits: Limits)
    requires BlobsSound(s, limits)
    ensures BlobsSound(After(s, q, limits), limits)
  {
    match q
    case Send(_, _, _, _, _) => SentSound(s, q, limits);
    case Digest(_, _, _, _, _) =>
    case EnsureNextJob(_, _, _, _, _) =>
    case Update(_) =>
    case Transition(ids, move, owner, now) => TransitionMoves(s.messages, ids, move, owner, now);
    case Delete(ids) => DroppedSound(s, Ids(ids), limits);
    case Purge(retention, now) => DroppedSound(s, Stale(s.messages, now - retention), limits);
  }

  lemma SentElsewhere(s: Store, q: Request, limits: Limits, id: Id)
    requires MailSound(s.messages, s.counter) && id in s.messages && q.Send?
    ensures Of(AfterSend(s, q, limits).attachments, id) == Of(s.attachments, id)
  {
    assert id.Sent? ==> id.number <= s.counter;
    OfAppended(s.attachments, Attached(Sent(s.counter + 1), q.files), id);
  }

  /** No call changes the attachments of a message that is there before and after it. */
  lemma AttachmentsStay(s: Store, q: Request, limits: Limits, id: Id)
    requires Sound(s, limits) && id in s.messages && id in After(s, q, limits).messages
    ensures Of(After(s, q, limits).attachments, id) == Of(s.attachments, id)
  {
    if q.Send? {
      SentElsewhere(s, q, limits, id);
    } else if q.Delete? || q.Purge? {
      var gone := if q.Delete? then Ids(q.ids) else Stale(s.messages, q.now - q.retention);
      WithoutKeeps(s.attachments, gone, id);
      var t := After(s, q, limits);
      assert t == s || t == Dropped(s, gone);
    } else {
      assert After(s, q, limits).attachments == s.attachments;
    }
  }

  /** A `send` that is refused after storing a file that was not there. */
  predicate Strands(s: Store, q: Request, limits: Limits) {
    q.Send? && Refusal(q).None?
    && KeepFiles(s.blobs, q.files, limits).error.Some? && KeepFiles(s.blobs, q.files, limits).blobs != s.blobs
  }

  lemma StrandedIsUnused(blobs: seq<Content>, attachments: seq<Attachment>, files: seq<File>, limits: Limits)
    requires Distinct(blobs) && Total(blobs) <= limits.total
    requires forall i :: 0 <= i < |attachments| ==> attachments[i].content in blobs
    requires KeepFiles(blobs, files, limits).blobs != blobs
    ensures exists c :: c in KeepFiles(blobs, files, limits).blobs && !Uses(attachments, c)
  {
    KeepFilesFits(blobs, files, limits);
    var kept := KeepFiles(blobs, files, limits).blobs;
    assert |blobs| < |kept|;
    var c := kept[|blobs|];
    assert c in kept && c !in blobs;
    assert !Uses(attachments, c);
  }

  lemma StoredIsUsed(s: Store, id: Id, files: seq<File>, limits: Limits, c: Content)
    requires Exact(s) && c in KeepFiles(s.blobs, files, limits).blobs
    ensures Uses(s.attachments + Attached(id, files), c)
  {
    var all := s.attachments + Attached(id, files);
    KeepFilesOnly(s.blobs, files, limits, c);
    if c in s.blobs {
      var i :| 0 <= i < |s.attachments| && s.attachments[i].content == c;
      assert all[i].content == c;
    } else {
      var i :| 0 <= i < |files| && files[i].File? && files[i].content == c;
      assert all[|s.attachments| + i].content == c;
    }
  }

  lemma SentExactly(s: Store, q: Request, limits: Limits)
    requires BlobsSound(s, limits) && Exact(s) && q.Send?
    ensures Exact(AfterSend(s, q, limits)) <==> !Strands(s, q, limits)
  {
    var t := AfterSend(s, q, limits);
    if Strands(s, q, limits) {
      StrandedIsUnused(s.blobs, s.attachments, q.files, limits);
      var c :| c in t.blobs && !Uses(t.attachments, c);
    } else if t != s {
      forall c | c in t.blobs ensures Uses(t.attachments, c) {
        if t.counter > s.counter { StoredIsUsed(s, Sent(s.counter + 1), q.files, limits, c); }
      }
    }
  }

  predicate Collects(s: Store, q: Request) {
    || (q.Delete? && q.ids != [] && Ids(q.ids) <= s.messages.Keys)
    || (q.Purge? && Stale(s.messages, q.now - q.retention) != {})
  }

  /** From a store that holds exactly the files in use, the next call leaves such a store if and
      only if it is not a `send` refused after storing a new file; a `delete`, and a `purge` that
      drops something, restore it from any store. */
  lemma StoreExactly(s: Store, q: Request, limits: Limits)
    requires BlobsSound(s, limits)
    ensures Exact(s) ==> (Exact(After(s, q, limits)) <==> !Strands(s, q, limits))
    ensures Collects(s, q) ==> Exact(After(s, q, limits))
  {
    match q
    case Send(_, _, _, _, _) => if Exact(s) { SentExactly(s, q, limits); }
    case Digest(_, _, _, _, _) =>
    case EnsureNextJob(_, _, _, _, _) =>
    case Update(_) =>
    case Transition(_, _, _, _) =>
    case Delete(ids) =>
      DroppedSound(s, Ids(ids), limits);
      assert forall id :: id in ids ==> id in Ids(ids);
    case Purge(retention, now) => DroppedSound(s, Stale(s.messages, now - retention), limits);
  }

  // ---------------------------------------------------------------- whole runs

  /** The database after these calls, from an empty one. */
  function Run(qs: seq<Request>, limits: Limits): Store
    decreases |qs|
  {
    if qs == [] then EMPTY else After(Run(qs[..|qs| - 1], limits), qs[|qs| - 1], limits)
  }

  ghost predicate Legal(qs: seq<Request>, limits: Limits)
    decreases |qs|
  {
    qs == [] || (Legal(qs[..|qs| - 1], limits) && Possible(Run(qs[..|qs| - 1], limits), qs[|qs| - 1]))
  }

  lemma {:induction false} RunIsSound(qs: seq<Request>, limits: Limits)
    requires Legal(qs, limits)
    ensures Sound(Run(qs, limits), limits)
    decreases |qs|
  {
    if qs != [] {
      RunIsSound(qs[..|qs| - 1], limits);
      MailStaysSound(Run(qs[..|qs| - 1], limits), qs[|qs| - 1], limits);
      BlobsStaySound(Run(qs[..|qs| - 1], limits), qs[|qs| - 1], limits);
    }
  }

  function One(b: bool): nat { if b then 1 else 0 }

  predicate Unread(s: Store, id: Id) { id in s.messages && s.messages[id].state == Queued }

  /** The call hands the message out and marks it read. */
  predicate HandsOut(q: Request, id: Id) { q.Update? && q.call.ReadBox? && q.call.marks && id in q.call.batch }

  predicate Appears(s: Store, q: Request, limits: Limits, id: Id) {
    id !in s.messages && id in After(s, q, limits).messages
  }

  /** How often the message was handed out, appeared, and was re-published. */
  function Reads(qs: seq<Request>, id: Id): nat
    decreases |qs|
  {
    if qs == [] then 0 else Reads(qs[..|qs| - 1], id) + One(HandsOut(qs[|qs| - 1], id))
  }

  function Arrivals(qs: seq<Request>, limits: Limits, id: Id): nat
    decreases |qs|
  {
    if qs == [] then 0
    else Arrivals(qs[..|qs| - 1], limits, id) + One(Appears(Run(qs[..|qs| - 1], limits), qs[|qs| - 1], limits, id))
  }

  function Revivals(qs: seq<Request>, limits: Limits, id: Id): nat
    decreases |qs|
  {
    if qs == [] then 0
    else Revivals(qs[..|qs| - 1], limits, id) + One(Republishes(Run(qs[..|qs| - 1], limits), qs[|qs| - 1], id))
  }

  lemma StepReadsOnce(s: Store, q: Request, limits: Limits, id: Id)
    requires MailSound(s.messages, s.counter) && Possible(s, q)
    ensures One(HandsOut(q, id)) + One(Unread(After(s, q, limits), id))
            <= One(Unread(s, id)) + One(Appears(s, q, limits, id)) + One(Republishes(s, q, id))
  {
    if HandsOut(q, id) {
    } else if id in s.messages && id in After(s, q, limits).messages {
      StepAges(s, q, limits, id);
    }
  }

  /** However the calls are mixed, a message is handed out by marking reads at most once for each
      time it appeared or was re-published; while it is unread, one of these is still open. */
  lemma {:induction false} ReadAtMostOnce(qs: seq<Request>, limits: Limits, id: Id)
    requires Legal(qs, limits)
    ensures Reads(qs, id) + One(Unread(Run(qs, limits), id)) <= Arrivals(qs, limits, id) + Revivals(qs, limits, id)
    decreases |qs|
  {
    if qs != [] {
      ReadAtMostOnce(qs[..|qs| - 1], limits, id);
      RunIsSound(qs[..|qs| - 1], limits);
      StepReadsOnce(Run(qs[..|qs| - 1], limits), qs[|qs| - 1], limits, id);
    }
  }

  /** A number of the counter is given to one message, once and for all. */
  lemma {:induction false} NumbersAreNotReused(qs: seq<Request>, limits: Limits, n: nat)
    requires Legal(qs, limits)
    ensures Arrivals(qs, limits, Sent(n)) <= One(n <= Run(qs, limits).counter)
    decreases |qs|
  {
    if qs != [] {
      var before, q := qs[..|qs| - 1], qs[|qs| - 1];
      NumbersAreNotReused(before, limits, n);
      RunIsSound(before, limits);
      MailStaysSound(Run(before, limits), q, limits);
      if Appears(Run(before, limits), q, limits, Sent(n)) {
        StepAdds(Run(before, limits), q, limits, Sent(n));
      }
    }
  }

  /** So a sent message that is never re-published is handed out at most once. */
  lemma SentIsReadOnce(qs: seq<Request>, limits: Limits, n: nat)
    requires Legal(qs, limits)
    ensures Reads(qs, Sent(n)) <= 1 + Revivals(qs, limits, Sent(n))
  {
    ReadAtMostOnce(qs, limits, Sent(n));
    NumbersAreNotReused(qs, limits, n);
  }

  /** The message is there from the first `m` calls on, and is not re-published after them. */
  ghost predicate Stays(qs: seq<Request>, limits: Limits, id: Id, m: nat)
    requires m <= |qs|
    decreases |qs|
  {
    && id in Run(qs, limits).messages
    && (m < |qs| ==>
          var before := qs[..|qs| - 1];
          Stays(before, limits, id, m) && !Republishes(Run(before, limits), qs[|qs| - 1], id))
  }

  /** Over any stretch of a run in which it is neither removed nor re-published, a message stays
      where it is or moves up its life cycle, and every stamp it has been given stays. */
  lemma {:induction false} LifeOverRuns(qs: seq<Request>, limits: Limits, id: Id, m: nat)
    requires Legal(qs, limits) && m <= |qs| && Stays(qs, limits, id, m)
    ensures id in Run(qs[..m], limits).messages
    ensures Ages(Run(qs[..m], limits).messages[id], Run(qs, limits).messages[id])
    decreases |qs|
  {
    RunIsSound(qs, limits);
    if m == |qs| {
      assert qs[..m] == qs;
    } else {
      var before, q := qs[..|qs| - 1], qs[|qs| - 1];
      assert before[..m] == qs[..m];
      LifeOverRuns(before, limits, id, m);
      RunIsSound(before, limits);
      StepAges(Run(before, limits), q, limits, id);
    }
  }

  /** The life of a handoff's message nobody reads: put in the inbox, undeliverable once its pane is
      gone, and archived with that reason after its age. */
  function Unclaimed(id: Id, place: string, live: set<string>, age: int, posted: int): seq<Request> {
    [EnsureNextJob(id, "lane", place, "body", posted), Update(MarkUndeliverable(live)),
     Update(AutoArchive(age, posted + age + 1))]
  }

  lemma RunOneMore(qs: seq<Request>, q: Request, limits: Limits)
    ensures Run(qs + [q], limits) == After(Run(qs, limits), q, limits)
    ensures Legal(qs + [q], limits) <==> Legal(qs, limits) && Possible(Run(qs, limits), q)
  {
    assert (qs + [q])[..|qs|] == qs;
  }

  lemma UnclaimedEnds(limits: Limits, n: string, place: string, live: set<string>, age: nat, posted: int)
    requires place !in live && live != {}
    ensures var before := Unclaimed(NextJob(n), place, live, age, posted);
            && Legal(before, limits)
            && Run(before, limits).messages
               == map[NextJob(n) := Message("lane", Some(place), "body", Mail.Archived, posted, None, None,
                                            Some(posted + age + 1), None, Some(GONE), None)]
  {
    hide PanePlace, Matches, Collected, Without, KeepFiles, Transitioned;
    var id := NextJob(n);
    var before := Unclaimed(id, place, live, age, posted);
    RunOneMore([], before[0], limits);
    RunOneMore([before[0]], before[1], limits);
    RunOneMore([before[0], before[1]], before[2], limits);
    assert [] + [before[0]] == [before[0]] && [before[0]] + [before[1]] == [before[0], before[1]];
    assert [before[0], before[1]] + [before[2]] == before;
  }

  /** Such a run ends with the message archived, and keeping it archived is what both calls promise;
      any later purge whose retention has passed drops it all the same. */
  lemma ArchivedIsPurged(limits: Limits, n: string, place: string, live: set<string>, age: nat, posted: int,
                         retention: int, now: int)
    requires place !in live && live != {} && posted + age + 1 < now - retention
    ensures var id := NextJob(n);
            var before := Unclaimed(id, place, live, age, posted);
            && Legal(before + [Purge(retention, now)], limits)
            && id in Run(before, limits).messages && Run(before, limits).messages[id].state == Mail.Archived
            && Run(before, limits).messages[id].reason == Some(GONE)
            && id !in Run(before + [Purge(retention, now)], limits).messages
  {
    hide Unclaimed, Collected, Without;
    var id := NextJob(n);
    var before := Unclaimed(id, place, live, age, posted);
    UnclaimedEnds(limits, n, place, live, age, posted);
    RunOneMore(before, Purge(retention, now), limits);
    assert id in Stale(Run(before, limits).messages, now - retention);
  }
}
