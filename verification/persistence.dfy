/**
 * The chunk-file rules applied when a world is loaded. Files are read in
 * order. A file that holds a useless chunk is deleted instead of being
 * loaded, a file whose name does not decode to a coordinate is skipped, and
 * a file that cannot be read is skipped. Two failures are not caught: a file
 * name too short to strip the extension from, and a file whose object is not
 * a chunk. Either one ends the load there, before the world's tasks are
 * started. The file names and contents themselves are inputs.
 */
module Persistence {
  import opened Wrappers
  import opened Records
  import opened Chunks

  /** Length of the ".ccdata" extension stripped from every chunk file name. */
  const ExtensionLength := 7

  /** What deserializing a file yields. */
  datatype Content =
    | Unreadable          // an I/O or class-loading failure, which is caught
    | NotAChunk           // an object of another class: the cast fails uncaught
    | Holds(chunk: Chunk)

  /**
   * One chunk file: its name, the coordinate the name without its extension
   * decodes to (None when it does not decode), and its content.
   */
  datatype ChunkFile = ChunkFile(name: string, coordinate: Option<ChunkCoordinate>, content: Content)

  /** Reading this file throws an exception the load does not catch. */
  predicate Aborts(f: ChunkFile) {
    |f.name| < ExtensionLength || f.content == NotAChunk
  }

  /** The file holds a readable chunk that is useless, and is deleted on load. */
  predicate DeletedOnLoad(f: ChunkFile) {
    !Aborts(f) && f.content.Holds? && f.content.chunk.IsUseless()
  }

  /** The file holds a useful chunk under a valid coordinate, and is loaded. */
  predicate LoadedOnLoad(f: ChunkFile) {
    !Aborts(f) && f.content.Holds? && !f.content.chunk.IsUseless() && f.coordinate.Some?
  }

  /** The outcome of loading: the chunk map and whether every file was processed. */
  datatype Loaded = Loaded(chunks: map<ChunkCoordinate, Chunk>, completed: bool)

  /** Loading `files`, in order, into `m`; the first aborting file stops the load. */
  function LoadInto(m: map<ChunkCoordinate, Chunk>, files: seq<ChunkFile>): Loaded
    decreases |files|
  {
    if files == [] then Loaded(m, true)
    else
      var prev := LoadInto(m, files[..|files| - 1]);
      var f := files[|files| - 1];
      if !prev.completed then prev
      else if Aborts(f) then prev.(completed := false)
      else if LoadedOnLoad(f) then prev.(chunks := prev.chunks[f.coordinate.value := f.content.chunk])
      else prev
  }

  /** No file before position `n` aborts. */
  predicate NoAbortBefore(files: seq<ChunkFile>, n: int) {
    forall i :: 0 <= i < n && i < |files| ==> !Aborts(files[i])
  }

  /** The load completes exactly when no file aborts it. */
  lemma {:induction false} CompletedIffNoAbort(m: map<ChunkCoordinate, Chunk>, files: seq<ChunkFile>)
    ensures LoadInto(m, files).completed <==> NoAbortBefore(files, |files|)
    decreases |files|
  {
    if files != [] {
      var init := files[..|files| - 1];
      CompletedIffNoAbort(m, init);
      assert forall i :: 0 <= i < |init| ==> init[i] == files[i];
    }
  }

  /** The files after an aborting one are never looked at. */
  lemma {:induction false} AbortIgnoresRest(m: map<ChunkCoordinate, Chunk>, files: seq<ChunkFile>, i: nat)
    requires i < |files| && Aborts(files[i])
    ensures LoadInto(m, files) == LoadInto(m, files[..i]).(completed := false)
    decreases |files|
  {
    var init := files[..|files| - 1];
    if i == |files| - 1 {
      assert init == files[..i];
    } else {
      assert init[i] == files[i];
      AbortIgnoresRest(m, init, i);
      assert init[..i] == files[..i];
    }
  }

  /**
   * Loading never installs a useless chunk: every entry of the result either
   * was already in `m`, untouched, or is the useful chunk of a loaded file
   * naming that coordinate.
   */
  lemma {:induction false} LoadKeepsOnlyUsefulChunks(m: map<ChunkCoordinate, Chunk>, files: seq<ChunkFile>)
    ensures forall c :: c in LoadInto(m, files).chunks ==>
      (c in m && LoadInto(m, files).chunks[c] == m[c]) || !LoadInto(m, files).chunks[c].IsUseless()
    ensures forall c :: c in LoadInto(m, files).chunks && c !in m ==>
      exists i :: 0 <= i < |files| && LoadedOnLoad(files[i]) && files[i].coordinate == Some(c)
                  && files[i].content == Holds(LoadInto(m, files).chunks[c])
    decreases |files|
  {
    if files != [] {
      var init := files[..|files| - 1];
      LoadKeepsOnlyUsefulChunks(m, init);
      var prev := LoadInto(m, init);
      var f := files[|files| - 1];
      forall c | c in LoadInto(m, files).chunks && c !in m
        ensures exists i :: 0 <= i < |files| && LoadedOnLoad(files[i]) && files[i].coordinate == Some(c)
                            && files[i].content == Holds(LoadInto(m, files).chunks[c])
      {
        if prev.completed && LoadedOnLoad(f) && f.coordinate.value == c {
          assert files[|files| - 1] == f;
        } else {
          var i :| 0 <= i < |init| && LoadedOnLoad(init[i]) && init[i].coordinate == Some(c)
                   && init[i].content == Holds(prev.chunks[c]);
          assert files[i] == init[i];
        }
      }
    }
  }

  /** Every loadable file that comes before any aborting one leaves its coordinate present in the chunk map. */
  lemma {:induction false} LoadedFilesArePresent(m: map<ChunkCoordinate, Chunk>, files: seq<ChunkFile>)
    ensures forall i :: 0 <= i < |files| && LoadedOnLoad(files[i]) && NoAbortBefore(files, i) ==>
      files[i].coordinate.value in LoadInto(m, files).chunks
    decreases |files|
  {
    if files != [] {
      var init := files[..|files| - 1];
      LoadedFilesArePresent(m, init);
      forall i | 0 <= i < |files| && LoadedOnLoad(files[i]) && NoAbortBefore(files, i)
        ensures files[i].coordinate.value in LoadInto(m, files).chunks
      {
        if i < |init| {
          assert files[i] == init[i];
          assert NoAbortBefore(init, i) by {
            forall j | 0 <= j < i && j < |init| ensures !Aborts(init[j]) {
              assert init[j] == files[j];
            }
          }
        } else {
          CompletedIffNoAbort(m, init);
          assert NoAbortBefore(init, |init|) by {
            forall j | 0 <= j < |init| ensures !Aborts(init[j]) {
              assert init[j] == files[j];
            }
          }
        }
      }
    }
  }
}
