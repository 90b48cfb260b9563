/**
 * The ChromaDB collection that rag_context_finder.py writes to and reads
 * from, modelled abstractly: an append-only sequence of entries, each an
 * id, a document and its metadata. Embeddings, persistence and
 * nearest-neighbour ranking belong to the library and are not modelled.
 */
module VectorStore {
  import opened Wrappers

  /** The metadata dictionary stored with a document. */
  type Metadata = map<string, string>

  datatype Entry = Entry(id: string, document: string, metadata: Metadata)

  /** The three parallel lists of one call of `add`. */
  datatype AddCall = AddCall(documents: seq<string>, metadatas: seq<Metadata>, ids: seq<string>)

  datatype AddError = LengthMismatch | EmptyBatch | DuplicateId

  predicate IdsDistinct(ids: seq<string>) {
    forall i, j :: 0 <= i < j < |ids| ==> ids[i] != ids[j]
  }

  function EntryIds(entries: seq<Entry>): (ids: seq<string>)
    ensures |ids| == |entries|
  {
    seq(|entries|, i requires 0 <= i < |entries| => entries[i].id)
  }

  predicate WellShaped(c: AddCall) {
    |c.documents| == |c.metadatas| == |c.ids|
  }

  /** The entries a well-shaped call of `add` stores, in list order. */
  function CallEntries(c: AddCall): (es: seq<Entry>)
    requires WellShaped(c)
    ensures |es| == |c.ids| && EntryIds(es) == c.ids
  {
    seq(|c.ids|, i requires 0 <= i < |c.ids| => Entry(c.ids[i], c.documents[i], c.metadatas[i]))
  }

  /** Whether `add` accepts a batch: it is rejected whole, or stored whole. */
  function CheckAdd(entries: seq<Entry>, c: AddCall): Outcome<AddError> {
    if !WellShaped(c) then Fail(LengthMismatch)
    else if |c.ids| == 0 then Fail(EmptyBatch)
    else if !IdsDistinct(EntryIds(entries) + c.ids) then Fail(DuplicateId)
    else Pass
  }

  class Collection {
    var entries: seq<Entry>
    /** Every call of `add` made on this collection, in order. */
    ghost var addLog: seq<AddCall>

    /** Ids are unique within the collection. */
    ghost predicate Valid()
      reads this
    {
      IdsDistinct(EntryIds(entries))
    }

    constructor ()
      ensures Valid() && entries == [] && addLog == []
    {
      entries := [];
      addLog := [];
    }

    /** `count()`: the number of stored ids, zero exactly when nothing is stored. */
    function Count(): (n: nat)
      reads this
      ensures n == |EntryIds(entries)|
      ensures n == 0 <==> entries == []
    {
      |entries|
    }

    /** `add(documents=…, metadatas=…, ids=…)`: all or nothing. */
    method Add(documents: seq<string>, metadatas: seq<Metadata>, ids: seq<string>)
      returns (outcome: Outcome<AddError>)
      requires Valid()
      modifies this
      ensures Valid()
      ensures outcome == CheckAdd(old(entries), AddCall(documents, metadatas, ids))
      ensures outcome.Pass? ==> entries == old(entries) + CallEntries(AddCall(documents, metadatas, ids))
      ensures outcome.Fail? ==> entries == old(entries)
      ensures addLog == old(addLog) + [AddCall(documents, metadatas, ids)]
    {
      var c := AddCall(documents, metadatas, ids);
      addLog := addLog + [c];
      outcome := CheckAdd(entries, c);
      if outcome.Pass? {
        var added := CallEntries(c);
        assert EntryIds(entries + added) == EntryIds(entries) + ids;
        entries := entries + added;
      }
    }
  }
}
