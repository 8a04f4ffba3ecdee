/** What a puller finds of a file in the cache and in permanent storage (ciphertext/ciphertext.go,
    ciphertext/puller.go). */
module LocalFiles {
  import opened CacheMachine
  import opened CachedBytes
  import Chunks
  import Pulling
  import Readers

  predicate HasLocalFile(s: State, n: Name) {
    Path(n, Uploaded) in s.dir || Path(n, Cached) in s.dir
  }

  /** The uploaded file comes first. */
  function LocalBytes(s: State, n: Name): Bytes
    requires HasLocalFile(s, n)
  {
    if Path(n, Uploaded) in s.dir then Content(s, Path(n, Uploaded)) else Content(s, Path(n, Cached))
  }

  /** After every orderly run, the uploaded file, the cached copy and permanent storage all have the bytes that
      were acknowledged: it is one file that a puller reads, whatever sources its chunks come from. */
  lemma SourcesAgree(s: State, n: Name)
    requires AllRight(s) && n in s.committed
    ensures HasLocalFile(s, n) ==> LocalBytes(s, n) == s.committed[n]
    ensures n in s.permanent ==> s.permanent[n] == s.committed[n]
    ensures s.committed[n] != [] && Path(n, Uploaded) !in s.dir ==> n in s.permanent
  {
    assert CopyRight(s, n, Cached);
    if Path(n, Uploaded) in s.dir {
      assert s.dir[Path(n, Uploaded)] == UploadFile(n);
    }
  }

  /** So the local handle a puller gets is on the acknowledged bytes, from the position asked for. */
  method OpenLocalFile(s: State, n: Name, begin: nat, meets: seq<Readers.Yield>) returns (file: Readers.Source?)
    ensures file != null <==> HasLocalFile(s, n)
    ensures file != null ==> fresh(file) && file.rest == Chunks.FromOn(LocalBytes(s, n), begin)
    ensures file != null && AllRight(s) && n in s.committed ==> file.rest == Chunks.FromOn(s.committed[n], begin)
  {
    var uploaded, cached := Path(n, Uploaded) in s.dir, Path(n, Cached) in s.dir;
    var content := if HasLocalFile(s, n) then LocalBytes(s, n) else [];
    file := Pulling.UseLocalFile(content, Chunks.Available(uploaded, cached, false, Chunks.NotSet, meets), begin);
    if AllRight(s) && n in s.committed {
      SourcesAgree(s, n);
    }
  }
}
