/** The wallet-offer table (src/models/wallet_qr_code.rs): every credential
    offer made for a card, of which at most one is active. Rows are kept in
    insertion order, which is also `created_at` order. */
module WalletQrCode {
  import opened Base

  datatype WalletQrCode = WalletQrCode(
    id: Uuid,
    cardId: Uuid,
    transactionId: string,
    qrCode: string,
    deepLink: Option<string>,
    cid: Option<string>,
    scannedAt: Option<Time>,
    isActive: bool,
    createdAt: Time)

  type Codes = seq<WalletQrCode>

  datatype CreateWalletQrCodeData = CreateWalletQrCodeData(
    cardId: Uuid,
    transactionId: string,
    qrCode: string,
    deepLink: Option<string>)

  /** The statement of the `create` transaction that fails, if any. */
  datatype TxFault = NoFault | AtBegin | AtDeactivate | AtInsert | AtCommit

  datatype DbError = DatabaseError(at: TxFault)

  predicate IdIn(codes: Codes, id: Uuid) {
    exists i :: 0 <= i < |codes| && codes[i].id == id
  }

  /** No two rows share an id. */
  predicate UniqueIds(codes: Codes) {
    forall i, j :: 0 <= i < j < |codes| ==> codes[i].id != codes[j].id
  }

  /** At most one active offer per card. */
  predicate OneActivePerCard(codes: Codes) {
    forall i, j :: 0 <= i < j < |codes| && codes[i].isActive && codes[j].isActive ==>
      codes[i].cardId != codes[j].cardId
  }

  /** Rows were stored in creation order. */
  predicate Chronological(codes: Codes) {
    forall i, j :: 0 <= i < j < |codes| ==> codes[i].createdAt <= codes[j].createdAt
  }

  /** The first statement of `create`: every active offer of the card is switched off. */
  function DeactivateCard(codes: Codes, cardId: Uuid): (r: Codes)
    ensures |r| == |codes|
    ensures forall i :: 0 <= i < |r| ==>
      r[i] == codes[i].(isActive := codes[i].isActive && codes[i].cardId != cardId)
  {
    seq(|codes|, i requires 0 <= i < |codes| =>
      codes[i].(isActive := codes[i].isActive && codes[i].cardId != cardId))
  }

  /** `WalletQrCode::create`: in one transaction, deactivate the card's
      offers and insert the new one, active. A failure anywhere in the
      transaction rolls both back. */
  function Create(codes: Codes, data: CreateWalletQrCodeData, freshId: Uuid, now: Time, fault: TxFault)
    : (r: Result<(WalletQrCode, Codes), DbError>)
    requires !IdIn(codes, freshId)
    ensures fault != NoFault <==> r.Err?
    ensures r.Ok? ==>
      var (row, after) := r.value;
      && row == WalletQrCode(freshId, data.cardId, data.transactionId, data.qrCode, data.deepLink,
                             None, None, true, now)
      && |after| == |codes| + 1 && after[|codes|] == row
      // the new offer is the card's only active one
      && (forall i :: 0 <= i < |after| && after[i].cardId == data.cardId && after[i].isActive ==> i == |codes|)
      // offers of other cards are untouched; the card's older offers only lose their active flag
      && (forall i :: 0 <= i < |codes| && codes[i].cardId != data.cardId ==> after[i] == codes[i])
      && (forall i :: 0 <= i < |codes| ==> after[i] == codes[i].(isActive := after[i].isActive))
  {
    if fault != NoFault then Err(DatabaseError(fault))
    else
      var row := WalletQrCode(freshId, data.cardId, data.transactionId, data.qrCode, data.deepLink,
                              None, None, true, now);
      Ok((row, DeactivateCard(codes, data.cardId) + [row]))
  }

  /** `create` keeps the table's invariants. */
  lemma CreatePreservesInvariants(codes: Codes, data: CreateWalletQrCodeData, freshId: Uuid, now: Time)
    requires !IdIn(codes, freshId)
    requires OneActivePerCard(codes) && UniqueIds(codes) && Chronological(codes)
    requires forall i :: 0 <= i < |codes| ==> codes[i].createdAt <= now
    ensures var after := Create(codes, data, freshId, now, NoFault).value.1;
      OneActivePerCard(after) && UniqueIds(after) && Chronological(after)
  {
    var after := Create(codes, data, freshId, now, NoFault).value.1;
    forall i, j | 0 <= i < j < |after| && after[i].isActive && after[j].isActive
      ensures after[i].cardId != after[j].cardId
    {
      if j < |codes| {
        assert codes[i].isActive && codes[j].isActive;
      }
    }
  }

  /** `find_active_by_card_id`: an active offer of the card, if there is
      one (the first in storage order). */
  function FindActiveByCardId(codes: Codes, cardId: Uuid): (r: Option<WalletQrCode>)
    ensures r.Some? ==> r.value in codes && r.value.cardId == cardId && r.value.isActive
    ensures r.None? <==> forall i :: 0 <= i < |codes| ==> !(codes[i].cardId == cardId && codes[i].isActive)
  {
    if |codes| == 0 then None
    else if codes[0].cardId == cardId && codes[0].isActive then Some(codes[0])
    else FindActiveByCardId(codes[1..], cardId)
  }

  /** Under the one-active invariant the lookup has a single possible answer. */
  lemma FindActiveIsTheActiveOffer(codes: Codes, cardId: Uuid, i: nat)
    requires OneActivePerCard(codes)
    requires i < |codes| && codes[i].cardId == cardId && codes[i].isActive
    ensures FindActiveByCardId(codes, cardId) == Some(codes[i])
  {
    var r := FindActiveByCardId(codes, cardId);
    var k :| 0 <= k < |codes| && codes[k] == r.value;
    assert k == i;
  }

  /** Right after `create` the lookup returns the new offer. */
  lemma FindActiveAfterCreate(codes: Codes, data: CreateWalletQrCodeData, freshId: Uuid, now: Time)
    requires !IdIn(codes, freshId)
    ensures var r := Create(codes, data, freshId, now, NoFault).value;
      FindActiveByCardId(r.1, data.cardId) == Some(r.0)
  {
    var r := Create(codes, data, freshId, now, NoFault).value;
    var found := FindActiveByCardId(r.1, data.cardId);
    var k :| 0 <= k < |r.1| && r.1[k] == found.value;
    assert k == |codes|;
  }

  /** `mark_as_scanned`: the offer with that id records the credential id
      and the scan time; nothing else changes. An unknown id changes nothing. */
  function MarkAsScanned(codes: Codes, id: Uuid, cid: string, now: Time): (r: Codes)
    ensures |r| == |codes|
    ensures forall i :: 0 <= i < |codes| && codes[i].id != id ==> r[i] == codes[i]
    ensures forall i :: 0 <= i < |codes| && codes[i].id == id ==>
      && r[i].cid == Some(cid) && r[i].scannedAt == Some(now)
      && r[i].isActive == codes[i].isActive && r[i].transactionId == codes[i].transactionId
      && r[i].qrCode == codes[i].qrCode && r[i].cardId == codes[i].cardId
      && r[i].deepLink == codes[i].deepLink && r[i].createdAt == codes[i].createdAt
  {
    seq(|codes|, i requires 0 <= i < |codes| =>
      if codes[i].id == id then codes[i].(cid := Some(cid), scannedAt := Some(now)) else codes[i])
  }

  /** Marking a scan never changes which offers are active. */
  lemma MarkAsScannedKeepsActiveOffers(codes: Codes, id: Uuid, cid: string, now: Time, cardId: Uuid)
    ensures var after := MarkAsScanned(codes, id, cid, now);
      && (OneActivePerCard(codes) ==> OneActivePerCard(after))
      && (FindActiveByCardId(codes, cardId).None? <==> FindActiveByCardId(after, cardId).None?)
  {
    var after := MarkAsScanned(codes, id, cid, now);
    assert forall i :: 0 <= i < |codes| ==> after[i].isActive == codes[i].isActive && after[i].cardId == codes[i].cardId;
  }

  /** Recording a scan on the offer the lookup finds leaves that offer
      the one found, now carrying the credential id. */
  lemma {:induction false} FindActiveAfterScan(codes: Codes, cardId: Uuid, offer: WalletQrCode, cid: string, now: Time)
    requires FindActiveByCardId(codes, cardId) == Some(offer)
    ensures FindActiveByCardId(MarkAsScanned(codes, offer.id, cid, now), cardId)
      == Some(offer.(cid := Some(cid), scannedAt := Some(now)))
  {
    var after := MarkAsScanned(codes, offer.id, cid, now);
    if !(codes[0].cardId == cardId && codes[0].isActive) {
      assert after[1..] == MarkAsScanned(codes[1..], offer.id, cid, now);
      FindActiveAfterScan(codes[1..], cardId, offer, cid, now);
    }
  }

  /** `list_by_card_id`: every offer of the card, active or not, newest first. */
  function ListByCardId(codes: Codes, cardId: Uuid): (r: Codes)
    ensures forall x :: x in r <==> x in codes && x.cardId == cardId
    // each of the card's offers as often as it is stored, and nothing else
    ensures forall x :: multiset(r)[x] == if x.cardId == cardId then multiset(codes)[x] else 0
    ensures |r| <= |codes|
  {
    if |codes| == 0 then []
    else
      var last := codes[|codes| - 1];
      var rest := ListByCardId(codes[..|codes| - 1], cardId);
      assert codes == codes[..|codes| - 1] + [last];
      assert forall x :: x in codes <==> x in codes[..|codes| - 1] || x == last;
      if last.cardId == cardId then [last] + rest else rest
  }

  /** Each row was created no earlier than the rows after it. */
  predicate NewestFirst(r: Codes) {
    forall i, j :: 0 <= i < j < |r| ==> r[i].createdAt >= r[j].createdAt
  }

  lemma PrependNewest(y: WalletQrCode, rest: Codes)
    requires NewestFirst(rest)
    requires forall x :: x in rest ==> x.createdAt <= y.createdAt
    ensures NewestFirst([y] + rest)
  {
    var r := [y] + rest;
    forall i, j | 0 <= i < j < |r| ensures r[i].createdAt >= r[j].createdAt {
      assert r[j] == rest[j - 1];
      if i > 0 {
        assert r[i] == rest[i - 1];
      }
    }
  }

  /** The history is newest first. */
  lemma {:induction false} ListIsNewestFirst(codes: Codes, cardId: Uuid)
    requires Chronological(codes)
    ensures NewestFirst(ListByCardId(codes, cardId))
  {
    if |codes| > 0 {
      var front := codes[..|codes| - 1];
      var last := codes[|codes| - 1];
      assert Chronological(front);
      ListIsNewestFirst(front, cardId);
      var rest := ListByCardId(front, cardId);
      forall x | x in rest ensures x.createdAt <= last.createdAt {
        var k :| 0 <= k < |front| && front[k] == x;
      }
      if last.cardId == cardId {
        PrependNewest(last, rest);
      }
    }
  }
}
