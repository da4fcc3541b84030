/**
 The document record shared by the retriever, the judge and the generator.
 A document is an object: the retriever overwrites its `rank` in place and
 several lists (the retriever's last documents, the re-ranked result) refer
 to the same objects.
 */
module Schema {

  /** Descriptive metadata attached to a stored document; never changed here. */
  datatype MetaData = MetaData(title: string, sourceSpecies: string, dataSource: string)

  class Document {
    var id: string
    var metadata: MetaData
    var data: string
    var rank: real

    /** A freshly built document has rank 0.0, the record's default. */
    constructor (id: string, metadata: MetaData, data: string)
      ensures this.id == id && this.metadata == metadata && this.data == data
      ensures rank == 0.0
    {
      this.id := id;
      this.metadata := metadata;
      this.data := data;
      rank := 0.0;
    }
  }

  /** The payload texts of `ds`, in list order (`[doc.data for doc in ds]`). */
  function Payloads(ds: seq<Document>): seq<string>
    reads ds
  {
    seq(|ds|, i requires 0 <= i < |ds| reads ds => ds[i].data)
  }

  /** The current ranks of `ds`, in list order. */
  function Ranks(ds: seq<Document>): seq<real>
    reads ds
  {
    seq(|ds|, i requires 0 <= i < |ds| reads ds => ds[i].rank)
  }

  /** No document object occurs twice in `ds`. */
  predicate Distinct(ds: seq<Document>)
  {
    forall i, j :: 0 <= i < j < |ds| ==> ds[i] != ds[j]
  }
}
