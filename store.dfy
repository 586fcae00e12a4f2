/** The private-message collection as the handlers of server.js use it:
    lookup by id, the ownership-checked soft delete, and the schema's
    `required` validation that decides whether a new record is stored. */
module Store {
  import opened Js
  import opened Records
  import opened Encryption
  import opened History

  const DeletedMarker := "[Message deleted]"

  /** `findById`: the position of the record with this id, if any. */
  function IndexOfId(pms: seq<PrivateMessage>, id: nat): (r: Option<nat>)
    ensures r.Some? ==> r.value < |pms| && pms[r.value].id == id
    ensures r.Some? ==> forall j :: 0 <= j < r.value ==> pms[j].id != id
    ensures r.None? ==> forall j :: 0 <= j < |pms| ==> pms[j].id != id
  {
    if pms == [] then None
    else if pms[0].id == id then Some(0)
    else match IndexOfId(pms[1..], id)
      case None => None
      case Some(k) => Some(k + 1)
  }

  datatype DeleteResult = NotFound | Forbidden | Deleted(messages: seq<PrivateMessage>)

  /** The checks and the update of the deleteMessage handler (server.js:490-506). */
  function SoftDelete(pms: seq<PrivateMessage>, id: nat, requester: string): DeleteResult
  {
    match IndexOfId(pms, id)
    case None => NotFound
    case Some(i) =>
      if pms[i].sender != requester then Forbidden
      else Deleted(pms[i := pms[i].(content := DeletedMarker, plaintext := DeletedMarker)])
  }

  /** An unknown id is reported as not found, a record of somebody else as
      forbidden, and on success exactly the content and the plaintext mirror
      of that one record become the deletion marker; its id, sender,
      recipient, flags and timestamp stay, and so does every other record. */
  lemma SoftDeleteSpec(pms: seq<PrivateMessage>, id: nat, requester: string)
    ensures SoftDelete(pms, id, requester) == NotFound <==> forall j :: 0 <= j < |pms| ==> pms[j].id != id
    ensures SoftDelete(pms, id, requester) == Forbidden <==>
      exists i :: 0 <= i < |pms| && pms[i].id == id && pms[i].sender != requester &&
        forall j :: 0 <= j < i ==> pms[j].id != id
    ensures SoftDelete(pms, id, requester).Deleted? ==>
      var after := SoftDelete(pms, id, requester).messages;
      var i := IndexOfId(pms, id).value;
      && |after| == |pms|
      && after[i] == PrivateMessage(id, requester, pms[i].recipient, DeletedMarker, DeletedMarker,
                                    pms[i].encrypted, pms[i].read, pms[i].timestamp)
      && pms[i].sender == requester
      && forall j :: 0 <= j < |pms| && j != i ==> after[j] == pms[j]
  {
    match IndexOfId(pms, id)
    case None =>
    case Some(i) =>
      forall i' | 0 <= i' < |pms| && pms[i'].id == id && forall j :: 0 <= j < i' ==> pms[j].id != id
        ensures i' == i
      {
        assert !(i < i') by { assert pms[i].id == id; }
      }
  }

  /** A deleted record stays in its conversation and is shown as the marker
      by history resolution, whoever views it and whatever the cipher does. */
  lemma DeletedRecordShowsMarker(c: Crypto, pms: seq<PrivateMessage>, id: nat, requester: string, viewerKey: string)
    requires SoftDelete(pms, id, requester).Deleted?
    ensures var after := SoftDelete(pms, id, requester).messages;
      var m := after[IndexOfId(pms, id).value];
      && m in Conversation(after, m.sender, m.recipient)
      && ResolvePrivate(c, m, viewerKey) == DeletedMarker
  {
    var i := IndexOfId(pms, id).value;
    var after := SoftDelete(pms, id, requester).messages;
    assert after[i] in after;
  }

  /** The ids of the collection: each is below the next one to be
      allocated and no two records share one. */
  predicate IdsFresh(pms: seq<PrivateMessage>, next: nat)
  {
    && (forall i :: 0 <= i < |pms| ==> pms[i].id < next)
    && (forall i, j :: 0 <= i < j < |pms| ==> pms[i].id != pms[j].id)
  }

  /** Storing a record under the next id keeps the ids fresh. */
  lemma AppendKeepsIdsFresh(pms: seq<PrivateMessage>, next: nat, m: PrivateMessage)
    requires IdsFresh(pms, next) && m.id == next
    ensures IdsFresh(pms + [m], next + 1)
  {
    var r := pms + [m];
    forall i, j | 0 <= i < j < |r| ensures r[i].id != r[j].id {
      if j == |pms| {
        assert r[i] == pms[i];
      }
    }
  }

  /** A soft delete changes no id. */
  lemma SoftDeleteKeepsIdsFresh(pms: seq<PrivateMessage>, next: nat, id: nat, requester: string)
    requires IdsFresh(pms, next)
    ensures SoftDelete(pms, id, requester).Deleted? ==> IdsFresh(SoftDelete(pms, id, requester).messages, next)
  {
    if SoftDelete(pms, id, requester).Deleted? {
      var after := SoftDelete(pms, id, requester).messages;
      assert |after| == |pms|;
      assert forall k :: 0 <= k < |after| ==> after[k].id == pms[k].id;
    }
  }

  /** Mongoose's `required` validators reject an empty string, so a message is
      stored only when both its content and its plaintext are non-empty. */
  predicate Storable(content: string, plaintext: string)
  {
    content != "" && plaintext != ""
  }
}
