/** Saved documents: they come from the debtor's own save requests, and stay as they
    are for as long as the debtor is there. */
module Documents {
  import opened Basics
  import opened Model
  import opened Histories
  import Lifecycle
  import Throttling

  /** A step adds the document that it saves, and deletes the ones of debtors that
      it deletes; it changes nothing else. */
  ghost predicate DocumentsEvolve(s: State, s': State, e: Event) {
    && (forall k | k in s'.documents && !(k in s.documents && s.documents[k] == s'.documents[k]) ::
          e.SaveDocument? && k == DocumentKey(e.debtorId, e.documentId) && k !in s.documents
          && s'.documents[k] == e.document)
    && (forall k | k in s.documents && k.debtorId in s.debtors ::
          k in s'.documents <==> k.debtorId in s'.debtors)
  }

  lemma TransferMessagesKeepDocuments(parse: IriParser, s: State, e: Event)
    requires IsTransferMessage(e)
    ensures Step(parse, s, e).documents == s.documents
  {
  }

  lemma MessagesKeepDocuments(parse: IriParser, s: State, e: Event)
    requires IsMessage(e)
    ensures Step(parse, s, e).documents == s.documents
  {
    if IsTransferMessage(e) {
      TransferMessagesKeepDocuments(parse, s, e);
    }
  }

  lemma StepEvolvesDocuments(parse: IriParser, s: State, e: Event)
    requires IsFresh(s, e)
    ensures DocumentsEvolve(s, Step(parse, s, e), e)
  {
    if IsMessage(e) {
      MessagesKeepDocuments(parse, s, e);
    }
  }

  /** Step `i` is a request to save a document under `k` that returns normally. */
  ghost predicate Saves(h: History, i: nat, k: DocumentKey)
    requires h.IsLegal() && i < |h.events|
  {
    h.events[i].SaveDocument? && k == DocumentKey(h.events[i].debtorId, h.events[i].documentId) && h.Succeeds(i)
  }

  lemma EvolutionOf(h: History, i: nat)
    requires h.IsLegal() && i < |h.events|
    ensures DocumentsEvolve(h.states[i], h.states[i + 1], h.events[i])
  {
    assert h.Takes(i);
    StepEvolvesDocuments(h.parse, h.states[i], h.events[i]);
  }

  lemma SavingStores(h: History, i: nat, k: DocumentKey)
    requires h.IsLegal() && i < |h.events| && Saves(h, i, k)
    ensures k in h.states[i + 1].documents && h.states[i + 1].documents[k] == h.events[i].document
    ensures IsActive(h.states[i], k.debtorId) && IsActive(h.states[i + 1], k.debtorId)
  {
    assert h.Takes(i);
  }

  /** An active debtor can save a document exactly when its meter admits that; the
      document is added as it is, and nothing else changes but the meter. */
  lemma SaveEffect(h: History, i: nat)
    requires h.IsLegal() && i < |h.events| && h.events[i].SaveDocument?
    ensures var (s, s', e) := (h.states[i], h.states[i + 1], h.events[i]);
            var (d, r, today) := (e.debtorId, Attempt(h.parse, s, e), Throttling.DayOf(e.now));
            if !Lifecycle.IsInPhase(s, d, 1) then r == Failure(DebtorDoesNotExist) && s' == s
            else if !Throttling.Admits(s.debtors[d], Throttling.Saves, today, e.maxSaves)
            then r == Failure(TooManySavedDocuments) && s' == s
            else
              && r.Success? && d in s'.debtors
              && s' == s.(debtors := s.debtors[d := s'.debtors[d]],
                          documents := s.documents[DocumentKey(d, e.documentId) := e.document])
              && Throttling.IsOnlyCharged(s.debtors[d], s'.debtors[d], Throttling.Saves, today, e.maxSaves)
  {
    var (s, e) := (h.states[i], h.events[i]);
    assert h.Takes(i);
    Lifecycle.InvHolds(h, i);
    if e.debtorId in s.debtors {
      Throttling.SavesAreAdmitted(s.debtors[e.debtorId], e.maxSaves, DateOf(e.now));
    }
  }

  /** Only activated debtors own documents. */
  lemma {:induction false} OwnersStayActivated(h: History, i: nat)
    requires h.IsLegal() && i <= |h.events|
    ensures forall k | k in h.states[i].documents ::
              k.debtorId in h.states[i].debtors && h.states[i].debtors[k.debtorId].isActivated
  {
    if i > 0 {
      OwnersStayActivated(h, i - 1);
      forall k | k in h.states[i].documents
        ensures k.debtorId in h.states[i].debtors && h.states[i].debtors[k.debtorId].isActivated
      {
        OwnerStaysActivated(h, i - 1, k);
      }
    }
  }

  lemma OwnerStaysActivated(h: History, i: nat, k: DocumentKey)
    requires h.IsLegal() && i < |h.events| && k in h.states[i + 1].documents
    requires k in h.states[i].documents ==>
               k.debtorId in h.states[i].debtors && h.states[i].debtors[k.debtorId].isActivated
    ensures k.debtorId in h.states[i + 1].debtors && h.states[i + 1].debtors[k.debtorId].isActivated
  {
    EvolutionOf(h, i);
    if k in h.states[i].documents {
      Lifecycle.AdvanceOf(h, i);
      Lifecycle.InvHolds(h, i + 1);
      assert Lifecycle.RowAdvances(h.states[i], h.states[i + 1], h.events[i], k.debtorId);
    } else {
      SavingNeedsOwner(h, i, k);
    }
  }

  lemma SavingNeedsOwner(h: History, i: nat, k: DocumentKey)
    requires h.IsLegal() && i < |h.events| && k in h.states[i + 1].documents && k !in h.states[i].documents
    ensures Saves(h, i, k)
    ensures k.debtorId in h.states[i + 1].debtors && h.states[i + 1].debtors[k.debtorId].isActivated
  {
    EvolutionOf(h, i);
    assert h.Takes(i);
  }

  /** A document that has been saved stays available, exactly as it was saved, for as
      long as the debtor's shard is kept: not even its deactivation deletes it. */
  lemma {:induction false} SavedDocumentsStay(h: History, i: nat, j: nat, k: DocumentKey)
    requires h.IsLegal() && i < j <= |h.events| && Saves(h, i, k) && h.KeepsShardOf(k.debtorId, i, j)
    ensures k in h.states[j].documents && h.states[j].documents[k] == h.events[i].document
  {
    SavingStores(h, i, k);
    if i + 1 < j {
      SavedDocumentsStay(h, i, j - 1, k);
      OwnersStayActivated(h, j - 1);
      EvolutionOf(h, j - 1);
      Lifecycle.ActivatedDebtorsPersist(h, j - 1, j, k.debtorId);
    }
  }

  /** Conversely, every document that is available was saved by a request that
      returned normally, under the record that is still there. */
  lemma {:induction false} DocumentsComeFromSaves(h: History, j: nat, k: DocumentKey) returns (i: nat)
    requires h.IsLegal() && j <= |h.events| && k in h.states[j].documents
    ensures i < j && Saves(h, i, k) && h.states[j].documents[k] == h.events[i].document
    ensures Lifecycle.IsThere(h, k.debtorId, i, j)
  {
    i := j - 1;
    EvolutionOf(h, i);
    OwnersStayActivated(h, j);
    if k in h.states[i].documents {
      i := DocumentsComeFromSaves(h, j - 1, k);
    } else {
      SavingNeedsOwner(h, i, k);
      SavingStores(h, i, k);
    }
  }
}
