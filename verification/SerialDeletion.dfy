/** data-exchange-service: a deletion that runs alone is the deletion of `Deletion`, and what
    two of them, or a second one, can leave behind. */
module SerialDeletion {
  import opened Options
  import opened Deletion
  import opened ExchangeLifecycle
  import opened DeletionLasts

  /** A deletion call taken to its end with nothing else running. */
  function Serve(s: System, k: nat, replies: nat -> StorageReply, now: int): System
    requires k in s.calls && !s.calls[k].Writing? && Sane(s.data, s.calls[k])
    decreases if s.calls[k].Asked? then 1 else 0,
              if s.calls[k].Deleting? then |s.calls[k].files| - s.calls[k].next else 0
  {
    var c := s.calls[k];
    var reply := if c.Deleting? && c.next < |c.files| then replies(c.next) else Gone;
    var t := AdvanceCall(s, k, reply, now, Intact);
    if NextOf(s.data, c, reply, now, Intact).Some? then Serve(t, k, replies, now) else t
  }

  /** Storage, request, audit and exchange after deleting from the i-th file on. */
  function Finished(d: State, id: string, r: nat, files: seq<Object>, i: nat, replies: nat -> StorageReply): State
    requires id in d.exchanges && r < |d.requests| && i <= |files|
  {
    var k := Deletes(files, replies, i);
    var lost := SetOf(files[i..k]) + if k < |files| && replies(k) == Threw(true) then {files[k]} else {};
    var status := if k == |files| then Completed else Failed;
    State(if k == |files| then d.exchanges[id := d.exchanges[id].(status := DELETED)] else d.exchanges,
          d.files, d.objects - lost, d.requests[r := d.requests[r].(status := status)],
          d.audit + (if k == |files| then [RetentionExecuted(r, id, |files|), DeletionCompleted(r, id)]
                     else [DeletionFailed(r, id)]),
          d.clock)
  }

  lemma {:induction false} ServeDeleting(s: System, k: nat, replies: nat -> StorageReply, now: int)
    requires k in s.calls && s.calls[k].Deleting? && Sane(s.data, s.calls[k])
    ensures var c := s.calls[k];
            var t := Serve(s, k, replies, now);
            && t.data == Finished(s.data, c.id, c.request, c.files, c.next, replies)
            && t.calls == s.calls - {k} && t.nextCall == s.nextCall
    decreases |s.calls[k].files| - s.calls[k].next
  {
    var c := s.calls[k];
    if c.next < |c.files| && replies(c.next) == Gone {
      hide AdvanceCall, Finished;
      var t := AdvanceCall(s, k, Gone, now, Intact);
      GoneStep(s, k, now);
      ServeDeleting(t, k, replies, now);
      FinishedStep(s.data, c.id, c.request, c.files, c.next, replies);
      assert t.calls - {k} == s.calls - {k};
    } else {
      ServeLast(s, k, replies, now);
    }
  }

  lemma GoneStep(s: System, k: nat, now: int)
    requires k in s.calls && s.calls[k].Deleting? && Sane(s.data, s.calls[k]) && s.calls[k].next < |s.calls[k].files|
    ensures var c, t := s.calls[k], AdvanceCall(s, k, Gone, now, Intact);
            && t.data == s.data.(objects := s.data.objects - {c.files[c.next]})
            && t.calls == s.calls[k := c.(next := c.next + 1)] && t.nextCall == s.nextCall
  {
    var c, d := s.calls[k], s.data;
    assert d.exchanges[c.id := d.exchanges[c.id]] == d.exchanges && d.audit + [] == d.audit;
  }

  /** One more file goes. */
  lemma FinishedStep(d: State, id: string, r: nat, files: seq<Object>, i: nat, replies: nat -> StorageReply)
    requires id in d.exchanges && r < |d.requests| && i < |files| && replies(i) == Gone
    ensures Finished(d, id, r, files, i, replies)
            == Finished(d.(objects := d.objects - {files[i]}), id, r, files, i + 1, replies)
  {
    var k := Deletes(files, replies, i);
    assert files[i..k] == [files[i]] + files[i + 1..k];
    assert SetOf(files[i..k]) == {files[i]} + SetOf(files[i + 1..k]);
  }

  lemma ServeLast(s: System, k: nat, replies: nat -> StorageReply, now: int)
    requires k in s.calls && s.calls[k].Deleting? && Sane(s.data, s.calls[k])
    requires var c := s.calls[k]; c.next < |c.files| ==> replies(c.next) != Gone
    ensures var c := s.calls[k];
            var t := Serve(s, k, replies, now);
            && t.data == Finished(s.data, c.id, c.request, c.files, c.next, replies)
            && t.calls == s.calls - {k} && t.nextCall == s.nextCall
  {
    var c := s.calls[k];
    assert c.files[c.next..c.next] == [];
    assert SetOf([]) == {};
  }

  /** The verdict comes first. */
  lemma ServeAsked(s: System, k: nat, replies: nat -> StorageReply, now: int)
    requires k in s.calls && s.calls[k].Asked? && Sane(s.data, s.calls[k])
    ensures var c, d, t := s.calls[k], s.data, Serve(s, k, replies, now);
            && t.calls == s.calls - {k} && t.nextCall == s.nextCall
            && t.data == match Ineligible(c.seen)
                         case Some(reason) =>
                           d.(requests := d.requests[c.request := d.requests[c.request].(status := Blocked(reason))],
                              audit := d.audit + [DeletionBlocked(c.request, c.id, reason)])
                         case None => Finished(d, c.id, c.request, FilesOf(d.files, c.id), 0, replies)
  {
    hide Ineligible, Finished;
    var c := s.calls[k];
    if Ineligible(c.seen).None? {
      var t := AdvanceCall(s, k, Gone, now, Intact);
      ServeDeleting(t, k, replies, now);
      assert t.calls - {k} == s.calls - {k};
      var d := s.data;
      assert t.data == d.(requests := d.requests[c.request := d.requests[c.request].(status := InProgress)],
                          audit := d.audit + []) by {
        assert d.exchanges[c.id := d.exchanges[c.id]] == d.exchanges;
      }
      InProgressForgotten(s.data, c.id, c.request, replies);
    } else {
      assert s.data.exchanges[c.id := s.data.exchanges[c.id]] == s.data.exchanges;
    }
  }

  lemma InProgressForgotten(d: State, id: string, r: nat, replies: nat -> StorageReply)
    requires id in d.exchanges && r < |d.requests|
    ensures var u := d.(requests := d.requests[r := d.requests[r].(status := InProgress)], audit := d.audit + []);
            Finished(u, id, r, FilesOf(d.files, id), 0, replies) == Finished(d, id, r, FilesOf(d.files, id), 0, replies)
  {
    assert d.audit + [] == d.audit;
  }

  /** A deletion that runs alone leaves the tables, the log and storage as `Delete` says. */
  lemma ServeIsDelete(s: System, id: string, replies: nat -> StorageReply, now: int)
    requires id in s.data.exchanges && s.nextCall !in s.calls
    ensures var t := Serve(BeginDeletion(s, id), s.nextCall, replies, now);
            t.data == Delete(s.data, id, replies) && t.calls == s.calls
  {
    hide Ineligible, Deletes, Delete;
    var b, r := BeginDeletion(s, id), |s.data.requests|;
    ServeAsked(b, s.nextCall, replies, now);
    DeleteCases(s.data, id, replies);
    assert b.calls - {s.nextCall} == s.calls;
    var files := FilesOf(s.data.files, id);
    assert files[0..Deletes(files, replies, 0)] == files[..Deletes(files, replies, 0)];
    assert forall status :: b.data.requests[r := Request(id, status)] == s.data.requests + [Request(id, status)];
  }

  // ------------------------------------------------------------ twice

  /** After the owner's download request a second deletion of an emptied exchange completes and
      is audited as deleting every file again, though not one object was there. */
  lemma DeletedTwice(s: System, id: string, replies: nat -> StorageReply, now: int)
    requires Inv(s) && s.data.clock <= now && Deleted(s, id) && Empty(s, id) && !s.data.exchanges[id].legalHold
    requires forall i: nat :: replies(i).Gone?
    ensures var e := s.data.exchanges[id];
            var t := Step(s, Event(now, Download(id, e.organizationId, e.tenantId)));
            id in t.data.exchanges
            && var u := Serve(BeginDeletion(t, id), t.nextCall, replies, now);
               && u.data.objects == s.data.objects && Deleted(u, id)
               && u.data.audit == s.data.audit
                                  + Evidence(|s.data.requests|, id, Completed, |FilesOf(s.data.files, id)|)
  {
    hide FilesOwned, IdsPlain, CallOk, Serve, Delete, Evidence;
    var e := s.data.exchanges[id];
    var event := Event(now, Download(id, e.organizationId, e.tenantId));
    var t := Step(s, event);
    DeletedIsLeft(s, event, id);
    assert t.data == s.data.(exchanges := s.data.exchanges[id := e.(status := EXPIRED)], clock := now)
        && t.calls == s.calls;
    assert Ineligible(t.data.exchanges[id]).None?;
    assert t.nextCall !in t.calls;
    ServeIsDelete(t, id, replies, now);
    DeletionEnds(t.data, id, replies);
    assert s.data.objects - SetOf(FilesOf(s.data.files, id)) == s.data.objects;
  }

  // ------------------------------------------------------------ two at once

  /** Two deletions of one eligible exchange overlap: the first completes while the second is
      on its way, and the second's storage call then throws. A FAILED request is left on a
      DELETED exchange. */
  lemma OverlappingDeletions(s: System, id: string, now: int)
    requires id in s.data.exchanges && Ineligible(s.data.exchanges[id]).None? && FilesOf(s.data.files, id) != []
    requires forall k :: k in s.calls ==> k < s.nextCall
    ensures var a, b, q, r := s.nextCall, s.nextCall + 1, |s.data.requests|, |s.data.requests| + 1;
            var second := AdvanceCall(BeginDeletion(BeginDeletion(s, id), id), b, Gone, now, Intact);
            var first := Serve(second, a, (i: nat) => Gone, now);
            && b in first.calls && Sane(first.data, first.calls[b])
            && var t := AdvanceCall(first, b, Threw(false), now, Intact);
               Deleted(t, id) && t.data.requests == s.data.requests + [Request(id, Completed), Request(id, Failed)]
  {
    hide Ineligible;
    var a, b, q, r := s.nextCall, s.nextCall + 1, |s.data.requests|, |s.data.requests| + 1;
    var e, files := s.data.exchanges[id], FilesOf(s.data.files, id);
    var both := BeginDeletion(BeginDeletion(s, id), id);
    var second := AdvanceCall(both, b, Gone, now, Intact);
    assert second.calls[b] == Deleting(id, r, e, files, 0) && second.calls[a] == Asked(id, q, e);
    assert second.data.requests == s.data.requests + [Request(id, Requested), Request(id, InProgress)];
    var replies := (i: nat) => Gone;
    AllGone(files, replies, 0);
    ServeAsked(second, a, replies, now);
    var first := Serve(second, a, replies, now);
    assert first.data.requests == s.data.requests + [Request(id, Completed), Request(id, InProgress)];
  }

  lemma {:induction false} AllGone(files: seq<Object>, replies: nat -> StorageReply, i: nat)
    requires i <= |files| && forall j: nat :: replies(j) == Gone
    ensures Deletes(files, replies, i) == |files|
    decreases |files| - i
  {
    if i < |files| {
      AllGone(files, replies, i + 1);
    }
  }
}
