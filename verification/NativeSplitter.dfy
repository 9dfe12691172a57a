/** FastCDC is a way of splitting files in the sense the catalog relies on. */
module NativeSplitter {
  import opened Prelude
  import opened FastCdc
  import opened CatalogInvariant

  ghost function Native(p: Params): Splitter
    requires p.Valid()
  {
    (data: Bytes) => ChunksFrom(data, 0, p)
  }

  /** For every accepted configuration and every file: no empty chunk, and the chunks are the
      file. */
  lemma FastCdcSplits(p: Params)
    requires p.Valid()
    ensures Splits(Native(p))
  {
    hide ChunksFrom, Flatten;
    forall data: Bytes
      ensures Flatten(Native(p)(data)) == data && forall i :: 0 <= i < |Native(p)(data)| ==> Native(p)(data)[i] != []
    {
      ChunksConcatenate(data, 0, p);
      assert data[0..] == data;
      forall i | 0 <= i < |ChunksFrom(data, 0, p)| ensures ChunksFrom(data, 0, p)[i] != [] {
        ChunksNotEmpty(data, 0, i, p);
      }
    }
  }
}
