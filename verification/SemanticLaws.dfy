/** What one file of a run is decided to need, and the entry and rows it gets, field by field. */
module SemanticLaws {
  import opened Wrappers
  import opened PathFilters
  import opened SemanticStore
  import opened SemanticIndex
  import opened Discovery

  /** A modification time is recorded when it is two seconds older than the run and fits 64 bits of nanoseconds. */
  lemma StampExactly(modified: Option<int>, floor: int)
    ensures RecordableStamp(modified, floor).Some? <==>
            && modified.Some? && modified.value + 2_000_000_000 <= floor
            && 0 <= modified.value <= 0xFFFF_FFFF_FFFF_FFFF
    ensures RecordableStamp(modified, floor).Some? ==> RecordableStamp(modified, floor) == modified
  {
  }

  /** The recorded stamp is the observed one. */
  predicate Stamped(files: Manifest, f: Seen) {
    && f.path in files && files[f.path].size == Some(f.size)
    && f.modified.Some? && files[f.path].mtime.Some? && files[f.path].mtime.value == f.modified.value
    && f.modified.value <= 0xFFFF_FFFF_FFFF_FFFF
  }

  predicate SameContent(files: Manifest, f: Seen) { f.path in files && files[f.path].hash.content == f.content }

  /** Skipped by its stamp, refreshed by its content, passed over, or indexed anew: in this order. */
  lemma DecisionExactly(files: Manifest, f: Seen, force: bool, chunk: Chunker)
    ensures var d, source := Decide(files, f, force, chunk), chunk(f.path, f.content);
      && (d == SkipByStamp <==> !force && Stamped(files, f))
      && (d == RefreshStamp <==> !force && !Stamped(files, f) && SameContent(files, f))
      && (d == SkipUnindexable <==>
            && (force || (!Stamped(files, f) && !SameContent(files, f)))
            && (source.NotUtf8? || source.ids == []))
      && (d.Replace? ==> source == Chunks(d.ids) && d.ids != [])
  {
  }

  /** The entry of an indexed file. */
  lemma EntryExactly(p: Pending, run: Run)
    ensures FreshEntry(p, run) ==
            SemanticIndex.Entry(Sha256(p.file.content), p.ids, run.now, Some(p.file.size),
                                RecordableStamp(p.file.modified, run.floor))
  {
  }

  /** The rows of a file: one for each chunk, in order, under its path and language. */
  lemma {:induction false} RowsExactly(root: string, path: string, ids: seq<string>, k: nat)
    requires k < |ids|
    ensures |ChunkRows(root, path, ids)| == |ids|
            && ChunkRows(root, path, ids)[k] == Row(root, path, LanguageOf(path), ids[k])
  {
    hide LanguageOf;
    RowCount(root, path, ids);
    RowCount(root, path, ids[..|ids| - 1]);
    if k < |ids| - 1 { RowsExactly(root, path, ids[..|ids| - 1], k); }
  }
}
