/** The local content-addressed store: one compressed blob per chunk hash, published once. */
module Cas {
  import opened Prelude

  type Blob = Bytes

  /** Zstandard as far as it matters here: what was compressed can be restored. */
  datatype Codec = Codec(compress: Bytes -> Blob, decompress: Blob -> Option<Bytes>)
  {
    ghost predicate RoundTrips()
    {
      forall raw: Bytes :: decompress(compress(raw)) == Some(raw)
    }
  }

  /** What replacing the final name by the finished temporary file may report. Overtaken is a
      refusal after which the object is found there, published by another writer. */
  datatype Publish = Published | ParentGone | Refused | Overtaken(blob: Blob)

  /** How a write ends; Raised stands for an exception. */
  datatype Written = Wrote | AlreadyThere | Raised

  datatype ReadError = Missing | Corrupt

  /** Reading decompresses and checks the digest. */
  function Read(h: Hasher, codec: Codec, store: map<Hash, Blob>, key: Hash): Result<Bytes, ReadError>
  {
    if key !in store then Err(Missing)
    else
      match codec.decompress(store[key])
      case None => Err(Corrupt)
      case Some(raw) => if h(raw) == key then Ok(raw) else Err(Corrupt)
  }

  /** The blob holds content with this hash. */
  predicate Belongs(h: Hasher, codec: Codec, key: Hash, blob: Blob)
  {
    codec.decompress(blob).Some? && h(codec.decompress(blob).value) == key
  }

  /** Bytes are only ever read under the hash they have, whatever is on disk. */
  lemma ReadsAreAuthentic(h: Hasher, codec: Codec, store: map<Hash, Blob>, key: Hash)
    ensures Read(h, codec, store, key).Ok? ==> h(Read(h, codec, store, key).value) == key
  {
  }

  /** Every object was put under the hash of its content. */
  ghost predicate Sound(h: Hasher, codec: Codec, store: map<Hash, Blob>)
  {
    forall key :: key in store ==> Read(h, codec, store, key).Ok?
  }

  class Repository {
    var store: map<Hash, Blob>
    var ensuredDirs: set<Bytes>

    constructor ()
      ensures store == map[]
    {
      store, ensuredDirs := map[], {};
    }

    /** Two attempts; a missing parent directory is recreated once. attempts says what the
        file system reports each time. An exception leaves the store alone. */
    method WriteOnce(key: Hash, data: Blob, attempts: seq<Publish>) returns (written: Written)
      requires |attempts| == 2
      modifies this
      ensures key in old(store) ==> written.AlreadyThere? && store == old(store)
      ensures key !in old(store) ==>
                var decisive := if attempts[0].ParentGone? then attempts[1] else attempts[0];
                && (written.Wrote? <==> decisive.Published?)
                && (written.AlreadyThere? <==> decisive.Overtaken?)
                && (written.Wrote? ==> store == old(store)[key := data])
                && (written.AlreadyThere? ==> store == old(store)[key := decisive.blob])
                && (written.Raised? ==> store == old(store))
    {
      if key in store {
        return AlreadyThere;
      }
      var parent: Bytes := key[..2];
      for attempt := 0 to 2
        invariant store == old(store) && (attempt > 0 ==> attempts[0].ParentGone?) && (attempt > 1 ==> attempts[1].ParentGone?)
      {
        ensuredDirs := ensuredDirs + {parent};
        match attempts[attempt]
        case Published =>
          store := store[key := data];
          return Wrote;
        case ParentGone => ensuredDirs := ensuredDirs - {parent};
        case Refused => return Raised;
        case Overtaken(blob) =>
          store := store[key := blob];
          return AlreadyThere;
      }
      return Raised;
    }

    /** After a put that did not raise, the chunk can be read back, and no other object has
        changed. Other writers publish only what belongs under the name. */
    method Put(h: Hasher, codec: Codec, raw: Bytes, attempts: seq<Publish>, ghost u: Universe) returns (written: Written)
      requires |attempts| == 2 && codec.RoundTrips() && Sound(h, codec, store)
      requires forall a :: a in attempts && a.Overtaken? ==> Belongs(h, codec, h(raw), a.blob)
      modifies this
      ensures Sound(h, codec, store)
      ensures !written.Raised? ==> Read(h, codec, store, h(raw)).Ok?
      ensures !written.Raised? && InjectiveOn(h, u) && raw in u && Read(h, codec, store, h(raw)).value in u ==>
                Read(h, codec, store, h(raw)) == Ok(raw)
      ensures forall key :: key in old(store) ==> key in store && store[key] == old(store)[key]
      ensures forall key :: key in store && key !in old(store) ==> key == h(raw)
    {
      written := WriteOnce(h(raw), codec.compress(raw), attempts);
      assert codec.decompress(codec.compress(raw)) == Some(raw);
      assert attempts[0] in attempts && attempts[1] in attempts;
      ReadsAreAuthentic(h, codec, store, h(raw));
      forall key | key in store ensures Read(h, codec, store, key).Ok? {
        assert key in old(store) ==> Read(h, codec, old(store), key).Ok?;
      }
    }
  }
}
