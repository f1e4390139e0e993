/** What an update's writes amount to: as long as no index they rewrite is also somebody's metadata, exactly
    the chosen hashes become current, a full update makes check pass and a second one finds nothing to do. */
module HashUpdates {
  import opened Common
  import opened ExperimentVersions

  ghost function Members(sel: seq<State>): set<State> {
    set st | st in sel
  }

  ghost function Marks(sel: set<State>): set<(Path, nat)> {
    set st | st in sel :: (st.index, st.pos)
  }

  ghost function Paths(sel: set<State>): set<Path> {
    set st | st in sel :: st.path
  }

  /** No index with a selected entry is the metadata file of any entry. */
  ghost predicate Apart(w: World, fs: Files, sel: set<State>) {
    forall st, other: State | st in sel && other.index in w.indexes && IsAt(w, fs, other) :: other.path != st.index
  }

  // ----- the effect, file by file -----

  /** The entries of an index with the marked ones' hashes current. */
  ghost function Marked(w: World, fs: Files, marks: set<(Path, nat)>, p: Path): (r: seq<Entry>)
    requires IndexReadable(w, fs, p)
    ensures |r| == |fs[p].entries| && forall i | 0 <= i < |r| :: r[i] == MarkedEntry(w, fs, marks, p, i)
  {
    seq(|fs[p].entries|, i requires 0 <= i < |fs[p].entries| => MarkedEntry(w, fs, marks, p, i))
  }

  ghost function MarkedEntry(w: World, fs: Files, marks: set<(Path, nat)>, p: Path, i: nat): Entry
    requires IndexReadable(w, fs, p) && i < |fs[p].entries|
  {
    var e := fs[p].entries[i];
    if (p, i) in marks then e.(hash := Some(StateAt(w, fs, p, i).expected)) else e
  }

  /** A document after the marked entries and the files in `paths` got their current hash. */
  ghost function Patched(w: World, fs: Files, marks: set<(Path, nat)>, paths: set<Path>, p: Path): Doc
    requires p in fs
  {
    var d := fs[p];
    if d.Broken? then d
    else
      var e := if p in w.indexes && IndexReadable(w, fs, p) then d.(entries := Marked(w, fs, marks, p)) else d;
      if p in paths then WithHash(e, Hash(w, d)) else e
  }

  ghost predicate PatchedTo(w: World, fs: Files, marks: set<(Path, nat)>, paths: set<Path>, fs': Files) {
    forall p | p in fs :: p in fs' && fs'[p] == Patched(w, fs, marks, paths, p)
  }

  /** `fs'` is `fs` with exactly the selected experiments' hashes current. */
  ghost predicate Updated(w: World, fs: Files, sel: set<State>, fs': Files) {
    Apart(w, fs, sel) && PatchedTo(w, fs, Marks(sel), Paths(sel), fs')
  }

  lemma {:induction false} Unmarked(w: World, fs: Files, marks: set<(Path, nat)>, p: Path)
    requires IndexReadable(w, fs, p) && forall i: nat :: (p, i) !in marks
    ensures Marked(w, fs, marks, p) == fs[p].entries
  {
  }

  // ----- the writes have that effect -----

  /** One more metadata file, of an index no entry of which is marked. */
  lemma {:induction false} MetaStep(w: World, fs0: Files, marks: set<(Path, nat)>, paths: set<Path>, fs: Files,
                                    st: State)
    requires PatchedTo(w, fs0, marks, paths, fs) && Writable(w, fs0, marks, st)
    ensures PatchedTo(w, fs0, marks, paths + {st.path}, fs[st.path := WithHash(st.metadata, st.expected)])
  {
    if IndexReadable(w, fs0, st.path) {
      Unmarked(w, fs0, marks, st.path);
    }
  }

  lemma {:induction false} MetaIsPatched(w: World, fs0: Files, marks: set<(Path, nat)>, paths: set<Path>, fs: Files,
                                         group: seq<State>, n: nat, all: set<Path>)
    requires PatchedTo(w, fs0, marks, paths, fs) && n <= |group| && all == paths + Paths(Members(group[..n]))
    requires AllWritable(w, fs0, marks, group)
    ensures PatchedTo(w, fs0, marks, all, MetaWritten(fs, group, n))
  {
    if n == 0 {
      assert all == paths;
    } else {
      var before := paths + Paths(Members(group[..n - 1]));
      PathsNext(group, n - 1);
      assert all == before + {group[n - 1].path};
      MetaIsPatched(w, fs0, marks, paths, fs, group, n - 1, before);
      assert Writable(w, fs0, marks, group[n - 1]);
      MetaStep(w, fs0, marks, before, MetaWritten(fs, group, n - 1), group[n - 1]);
    }
  }

  /** A loaded state whose metadata file has no marked entries. */
  ghost predicate Writable(w: World, fs0: Files, marks: set<(Path, nat)>, st: State) {
    IsAt(w, fs0, st) && forall i: nat :: (st.path, i) !in marks
  }

  ghost predicate AllWritable(w: World, fs0: Files, marks: set<(Path, nat)>, group: seq<State>) {
    forall k {:trigger Writable(w, fs0, marks, group[k])} | 0 <= k < |group| :: Writable(w, fs0, marks, group[k])
  }

  lemma {:induction false} PathsNext(group: seq<State>, n: nat)
    requires n < |group|
    ensures Members(group[..n + 1]) == Members(group[..n]) + {group[n]}
    ensures Paths(Members(group[..n + 1])) == Paths(Members(group[..n])) + {group[n].path}
  {
    assert group[..n + 1] == group[..n] + [group[n]];
  }

  /** The entries in memory are the marked ones. */
  lemma {:induction false} MarkingIsMarked(w: World, fs0: Files, p: Path, group: seq<State>, n: nat,
                                           marks: set<(Path, nat)>)
    requires IsGroup(w, fs0, p, group) && IndexReadable(w, fs0, p) && Fits(fs0[p].entries, group) && n <= |group|
    requires marks == Marks(Members(group[..n]))
    ensures Marking(fs0[p].entries, group, n) == Marked(w, fs0, marks, p)
  {
    if n == 0 {
      Unmarked(w, fs0, marks, p);
    } else {
      var st := group[n - 1];
      assert InGroup(w, fs0, p, group, n - 1);
      PathsNext(group, n - 1);
      var before := Marks(Members(group[..n - 1]));
      MarkingIsMarked(w, fs0, p, group, n - 1, before);
      assert marks == before + {(p, st.pos)};
      MarkOne(w, fs0, before, p, st);
    }
  }

  lemma {:induction false} MarkOne(w: World, fs0: Files, marks: set<(Path, nat)>, p: Path, st: State)
    requires IndexReadable(w, fs0, p) && st.index == p && IsAt(w, fs0, st)
    ensures Marked(w, fs0, marks + {(p, st.pos)}, p)
         == Marked(w, fs0, marks, p)[st.pos := st.entry.(hash := Some(st.expected))]
  {
  }

  lemma {:induction false} MarkedSame(w: World, fs0: Files, marks: set<(Path, nat)>, marks': set<(Path, nat)>, p: Path)
    requires IndexReadable(w, fs0, p) && forall i: nat :: (p, i) in marks <==> (p, i) in marks'
    ensures Marked(w, fs0, marks, p) == Marked(w, fs0, marks', p)
  {
  }

  /** The index, of which no metadata was written. */
  lemma {:induction false} IndexStep(w: World, fs0: Files, marks: set<(Path, nat)>, marks': set<(Path, nat)>,
                                     paths: set<Path>, fs: Files, p: Path)
    requires PatchedTo(w, fs0, marks, paths, fs) && p in w.indexes && IndexReadable(w, fs0, p) && p !in paths
    requires forall q, i: nat | q != p :: (q, i) in marks <==> (q, i) in marks'
    ensures PatchedTo(w, fs0, marks', paths, fs[p := fs0[p].(entries := Marked(w, fs0, marks', p))])
  {
    forall q | q in fs0 && q != p
      ensures Patched(w, fs0, marks', paths, q) == Patched(w, fs0, marks, paths, q)
    {
      if q in w.indexes && IndexReadable(w, fs0, q) {
        MarkedSame(w, fs0, marks, marks', q);
      }
    }
  }

  /** The selected experiments of the given indexes. */
  ghost function Finished(sel: seq<State>, order: seq<Path>): set<State> {
    set st | st in sel && st.index in order
  }

  /** All writes for one index take what was done before to what is done after. */
  lemma {:induction false} GroupStep(w: World, fs0: Files, sel: set<State>, done: set<State>, p: Path,
                                     group: seq<State>, fs: Files)
    requires Apart(w, fs0, sel) && done <= sel && Members(group) <= sel && p in w.indexes
    requires (forall st | st in sel :: st.index in w.indexes && IsAt(w, fs0, st)) && IndexReadable(w, fs0, p)
    requires IsGroup(w, fs0, p, group) && group != [] && forall st | st in done :: st.index != p
    requires PatchedTo(w, fs0, Marks(done), Paths(done), fs)
    ensures var all := done + Members(group);
            PatchedTo(w, fs0, Marks(all), Paths(all), GroupWritten(fs0, fs, p, group))
  {
    var all, n := done + Members(group), |group|;
    assert group[..n] == group;
    GroupFits(w, fs0, p, group);
    NoMetadataIsMarked(w, fs0, sel, done, group);
    assert Paths(all) == Paths(done) + Paths(Members(group));
    MetaIsPatched(w, fs0, Marks(done), Paths(done), fs, group, n, Paths(all));
    forall st | st in group
      ensures st.index == p
    {
      var k :| 0 <= k < |group| && group[k] == st;
      assert InGroup(w, fs0, p, group, k);
    }
    MarksUnion(done, group, p);
    MarkingIsMarked(w, fs0, p, group, n, Marks(Members(group)));
    MarkedSame(w, fs0, Marks(all), Marks(Members(group)), p);
    assert group[0] in sel;
    IndexStep(w, fs0, Marks(done), Marks(all), Paths(all), MetaWritten(fs, group, n), p);
  }

  lemma {:induction false} MarksUnion(done: set<State>, group: seq<State>, p: Path)
    requires (forall st | st in group :: st.index == p) && forall st | st in done :: st.index != p
    ensures var all := done + Members(group);
            && (forall i: nat :: (p, i) in Marks(all) <==> (p, i) in Marks(Members(group)))
            && (forall q, i: nat | q != p :: (q, i) in Marks(done) <==> (q, i) in Marks(all))
  {
  }

  lemma {:induction false} NoMetadataIsMarked(w: World, fs0: Files, sel: set<State>, done: set<State>,
                                              group: seq<State>)
    requires Apart(w, fs0, sel) && done <= sel && Members(group) <= sel
    requires forall st | st in sel :: st.index in w.indexes && IsAt(w, fs0, st)
    ensures AllWritable(w, fs0, Marks(done), group)
  {
    forall k | 0 <= k < |group|
      ensures Writable(w, fs0, Marks(done), group[k])
    {
      assert group[k] in Members(group);
      assert group[k] in sel;
    }
  }

  lemma {:induction false} FinishedNext(sel: seq<State>, k: nat)
    requires k < |Order(sel)|
    ensures var p, done := Order(sel)[k], Finished(sel, Order(sel)[..k]);
            && (forall st | st in done :: st.index != p) && Group(sel, p) != []
            && Finished(sel, Order(sel)[..k + 1]) == done + Members(Group(sel, p))
  {
    var order, p := Order(sel), Order(sel)[k];
    forall j | 0 <= j < k
      ensures order[j] != p
    {
      OrderDistinct(sel, j, k);
    }
    FinishedStep(sel, order[..k], p);
    assert order[..k + 1] == order[..k] + [p];
    OrderMember(sel, p);
    var st :| st in sel && st.index == p;
    GroupMember(sel, p, st);
  }

  lemma {:induction false} FinishedStep(sel: seq<State>, order: seq<Path>, p: Path)
    ensures Finished(sel, order + [p]) == Finished(sel, order) + Members(Group(sel, p))
  {
    forall st
      ensures st in Group(sel, p) <==> st in sel && st.index == p
    {
      GroupMember(sel, p, st);
    }
  }

  lemma {:induction false} AllFinished(sel: seq<State>)
    ensures Finished(sel, Order(sel)) == Members(sel)
  {
    forall st | st in sel
      ensures st.index in Order(sel)
    {
      OrderMember(sel, st.index);
    }
  }

  lemma {:induction false} NothingYet(w: World, fs: Files)
    ensures PatchedTo(w, fs, {}, {}, fs)
  {
    forall p | p in fs
      ensures Patched(w, fs, {}, {}, p) == fs[p]
    {
      if p in w.indexes && IndexReadable(w, fs, p) {
        Unmarked(w, fs, {}, p);
      }
    }
  }

  lemma {:induction false} NoneFinished(sel: seq<State>)
    ensures var done := Finished(sel, Order(sel)[..0]); Marks(done) == {} && Paths(done) == {}
  {
    assert Finished(sel, Order(sel)[..0]) == {};
  }

  lemma {:induction false} WritesArePatches(w: World, fs: Files, ids: seq<string>, paper: Option<string>,
                                            sel: seq<State>, n: nat)
    requires Readable(w, fs) && sel == Selected(w, fs, ids, paper) && Apart(w, fs, Members(sel)) && n <= |Order(sel)|
    ensures var done := Finished(sel, Order(sel)[..n]);
            PatchedTo(w, fs, Marks(done), Paths(done), AllWritten(fs, sel, n))
  {
    if n == 0 {
      NoneFinished(sel);
      NothingYet(w, fs);
    } else {
      WritesArePatches(w, fs, ids, paper, sel, n - 1);
      GroupPatches(w, fs, ids, paper, sel, n - 1, AllWritten(fs, sel, n - 1));
    }
  }

  lemma {:induction false} GroupPatches(w: World, fs: Files, ids: seq<string>, paper: Option<string>, sel: seq<State>,
                                        k: nat, now: Files)
    requires Readable(w, fs) && sel == Selected(w, fs, ids, paper) && Apart(w, fs, Members(sel)) && k < |Order(sel)|
    requires var done := Finished(sel, Order(sel)[..k]); PatchedTo(w, fs, Marks(done), Paths(done), now)
    ensures var p, done := Order(sel)[k], Finished(sel, Order(sel)[..k + 1]);
            PatchedTo(w, fs, Marks(done), Paths(done), GroupWritten(fs, now, p, Group(sel, p)))
  {
    var p, done := Order(sel)[k], Finished(sel, Order(sel)[..k]);
    GroupIsGroup(w, fs, ids, paper, sel, k);
    FinishedNext(sel, k);
    SelectedStates(w, fs, ids, paper, sel, p);
    GroupStep(w, fs, Members(sel), done, p, Group(sel, p), now);
  }

  lemma {:induction false} SelectedStates(w: World, fs: Files, ids: seq<string>, paper: Option<string>, sel: seq<State>,
                                          p: Path)
    requires Readable(w, fs) && sel == Selected(w, fs, ids, paper) && p in w.indexes
    ensures (forall st | st in Members(sel) :: st.index in w.indexes && IsAt(w, fs, st)) && IndexReadable(w, fs, p)
    ensures Members(Group(sel, p)) <= Members(sel)
  {
    forall st | st in sel
      ensures st.index in w.indexes && IsAt(w, fs, st)
    {
      SelectedMember(w, fs, ids, paper, st);
    }
    forall st | st in Group(sel, p)
      ensures st in sel
    {
      GroupMember(sel, p, st);
    }
  }

  /** What an update writes is exactly its selection, if the indexes it rewrites are nobody's metadata. */
  lemma {:induction false} WroteIsUpdated(w: World, fs: Files, ids: seq<string>, paper: Option<string>,
                                          records: seq<Path>, fs': Files)
    requires Wrote(w, fs, ids, paper, records, fs') && Apart(w, fs, Members(Selected(w, fs, ids, paper)))
    ensures Updated(w, fs, Members(Selected(w, fs, ids, paper)), fs')
  {
    var sel := Selected(w, fs, ids, paper);
    WritesArePatches(w, fs, ids, paper, sel, |Order(sel)|);
    assert Order(sel)[..|Order(sel)|] == Order(sel);
    AllFinished(sel);
  }

  // ----- experiments afterwards -----

  /** How one experiment looks after an update. */
  ghost predicate Follows(st: State, st': State, sel: set<State>) {
    && st'.index == st.index && st'.pos == st.pos && st'.slug == st.slug && st'.path == st.path
    && st'.expected == st.expected
    && st'.entry == (if (st.index, st.pos) in Marks(sel) then st.entry.(hash := Some(st.expected)) else st.entry)
    && Stored(st'.metadata) == (if st.path in Paths(sel) then Some(st.expected) else Stored(st.metadata))
  }

  lemma {:induction false} FileAfter(w: World, fs: Files, sel: set<State>, fs': Files, st: State)
    requires Updated(w, fs, sel, fs') && st.index in w.indexes && IsAt(w, fs, st)
    ensures var q := st.path;
            && q in fs' && fs'[q].Object? && Hash(w, fs'[q]) == Hash(w, fs[q])
            && Stored(fs'[q]) == if q in Paths(sel) then Some(Hash(w, fs[q])) else Stored(fs[q])
  {
    var q := st.path;
    assert forall i: nat :: (q, i) !in Marks(sel);
    if IndexReadable(w, fs, q) {
      Unmarked(w, fs, Marks(sel), q);
    }
    assert fs[q].(entries := fs[q].entries) == fs[q];
    HashIgnoresItself(w, fs[q], Hash(w, fs[q]));
  }

  lemma {:induction false} IndexAfter(w: World, fs: Files, sel: set<State>, fs': Files, p: Path)
    requires Updated(w, fs, sel, fs') && p in w.indexes && IndexReadable(w, fs, p)
    ensures IndexReadable(w, fs', p) && fs'[p].entries == Marked(w, fs, Marks(sel), p)
  {
    var entries := Marked(w, fs, Marks(sel), p);
    assert fs'[p].Object? && fs'[p].entries == entries;
    forall i | 0 <= i < |entries|
      ensures var q := w.place(p, entries[i].path); q in fs' && fs'[q].Object?
    {
      assert entries[i].path == fs[p].entries[i].path;
      FileAfter(w, fs, sel, fs', StateAt(w, fs, p, i));
    }
  }

  lemma {:induction false} StateAfter(w: World, fs: Files, sel: set<State>, fs': Files, p: Path, i: nat)
    requires Updated(w, fs, sel, fs') && p in w.indexes && IndexReadable(w, fs, p) && i < |fs[p].entries|
    ensures IndexReadable(w, fs', p) && |fs'[p].entries| == |fs[p].entries|
    ensures Follows(StateAt(w, fs, p, i), StateAt(w, fs', p, i), sel)
  {
    IndexAfter(w, fs, sel, fs', p);
    FileAfter(w, fs, sel, fs', StateAt(w, fs, p, i));
  }

  lemma {:induction false} MarkedIffChosen(w: World, fs: Files, ids: seq<string>, paper: Option<string>, p: Path,
                                           i: nat)
    requires Readable(w, fs) && p in w.indexes && IndexReadable(w, fs, p) && i < |fs[p].entries|
    ensures var st, sel := StateAt(w, fs, p, i), Members(Selected(w, fs, ids, paper));
            && ((p, i) in Marks(sel) <==> Chosen(st, ids, paper)) && (Chosen(st, ids, paper) ==> st.path in Paths(sel))
  {
    var st, sel := StateAt(w, fs, p, i), Members(Selected(w, fs, ids, paper));
    SelectedMember(w, fs, ids, paper, st);
    assert st in sel ==> (st.index, st.pos) in Marks(sel);
    if (p, i) in Marks(sel) {
      var other :| other in sel && (other.index, other.pos) == (p, i);
      SelectedMember(w, fs, ids, paper, other);
    }
  }

  /** No experiment within the arguments' reach is left invalid, and those outside it are not made invalid. */
  lemma {:induction false} ExperimentAfter(w: World, fs: Files, ids: seq<string>, paper: Option<string>, fs': Files,
                                           p: Path, i: nat)
    requires Readable(w, fs) && Updated(w, fs, Members(Selected(w, fs, ids, paper)), fs')
    requires p in w.indexes && IndexReadable(w, fs, p) && i < |fs[p].entries|
    ensures IndexReadable(w, fs', p) && |fs'[p].entries| == |fs[p].entries|
    ensures var st, st' := StateAt(w, fs, p, i), StateAt(w, fs', p, i);
            && (Invalid(st') ==> Invalid(st) && !Chosen(st, ids, paper))
            && st'.index == st.index && st'.slug == st.slug && st'.entry.id == st.entry.id
  {
    StateAfter(w, fs, Members(Selected(w, fs, ids, paper)), fs', p, i);
    MarkedIffChosen(w, fs, ids, paper, p, i);
  }

  lemma {:induction false} StillReadable(w: World, fs: Files, sel: set<State>, fs': Files)
    requires Readable(w, fs) && Updated(w, fs, sel, fs')
    ensures Readable(w, fs')
  {
    forall k | 0 <= k < |w.indexes|
      ensures IndexReadable(w, fs', w.indexes[k])
    {
      IndexAfter(w, fs, sel, fs', w.indexes[k]);
    }
  }

  lemma {:induction false} UpdatedIsClean(w: World, fs: Files, paper: Option<string>, fs': Files)
    requires Readable(w, fs) && AnyPaper(paper) && Updated(w, fs, Members(Selected(w, fs, [], paper)), fs')
    ensures Clean(w, fs')
  {
    var sel := Members(Selected(w, fs, [], paper));
    StillReadable(w, fs, sel, fs');
    forall k, i | 0 <= k < |w.indexes| && 0 <= i < |fs'[w.indexes[k]].entries|
      ensures !Invalid(StateAt(w, fs', w.indexes[k], i))
    {
      IndexAfter(w, fs, sel, fs', w.indexes[k]);
      ExperimentAfter(w, fs, [], paper, fs', w.indexes[k], i);
    }
  }

  /** A full update makes check pass. */
  lemma {:induction false} FullUpdateRepairs(w: World, fs: Files, paper: Option<string>, records: seq<Path>, fs': Files)
    requires Wrote(w, fs, [], paper, records, fs') && AnyPaper(paper)
    requires Apart(w, fs, Members(Selected(w, fs, [], paper)))
    ensures Clean(w, fs')
  {
    WroteIsUpdated(w, fs, [], paper, records, fs');
    UpdatedIsClean(w, fs, paper, fs');
  }

  // ----- only the chosen -----

  /** An update touches an index entry only for a chosen experiment, and there only the hash. */
  lemma {:induction false} OnlyChosenEntries(w: World, fs: Files, ids: seq<string>, paper: Option<string>,
                                             records: seq<Path>, fs': Files, p: Path, i: nat)
    requires Wrote(w, fs, ids, paper, records, fs') && Apart(w, fs, Members(Selected(w, fs, ids, paper)))
    requires p in w.indexes && IndexReadable(w, fs, p) && i < |fs[p].entries|
    ensures p in fs' && fs'[p].Object? && |fs'[p].entries| == |fs[p].entries|
    ensures var st := StateAt(w, fs, p, i);
            fs'[p].entries[i] == if Chosen(st, ids, paper) then st.entry.(hash := Some(st.expected)) else st.entry
  {
    WroteIsUpdated(w, fs, ids, paper, records, fs');
    IndexAfter(w, fs, Members(Selected(w, fs, ids, paper)), fs', p);
    MarkedIffChosen(w, fs, ids, paper, p, i);
  }

  ghost predicate ChosenAt(w: World, fs: Files, ids: seq<string>, paper: Option<string>, q: Path, st: State) {
    st.index in w.indexes && IsAt(w, fs, st) && Chosen(st, ids, paper) && st.path == q
  }

  /** Apart from those entries a file changes only if a chosen experiment's metadata is there, and then only
      in its hash. */
  lemma {:induction false} OnlyChosenFiles(w: World, fs: Files, ids: seq<string>, paper: Option<string>,
                                           records: seq<Path>, fs': Files, q: Path)
    requires Wrote(w, fs, ids, paper, records, fs') && Apart(w, fs, Members(Selected(w, fs, ids, paper)))
    requires q in fs
    ensures q in fs'
    ensures var d := if exists st :: ChosenAt(w, fs, ids, paper, q, st) then WithHash(fs[q], Hash(w, fs[q])) else fs[q];
            if q in w.indexes && fs[q].Object? then fs'[q].Object? && fs'[q] == d.(entries := fs'[q].entries)
            else fs'[q] == d
  {
    var sel := Members(Selected(w, fs, ids, paper));
    WroteIsUpdated(w, fs, ids, paper, records, fs');
    if q in Paths(sel) {
      var st :| st in sel && st.path == q;
      SelectedMember(w, fs, ids, paper, st);
      assert ChosenAt(w, fs, ids, paper, q, st);
    }
    if st :| ChosenAt(w, fs, ids, paper, q, st) {
      SelectedMember(w, fs, ids, paper, st);
      assert st in sel;
    }
  }

  // ----- updating twice -----

  /** Same experiments in the same order. */
  ghost predicate SameList(a: seq<State>, b: seq<State>) {
    |a| == |b| && forall k | 0 <= k < |a| :: a[k].slug == b[k].slug && a[k].entry.id == b[k].entry.id
  }

  lemma {:induction false} SameExperiment(w: World, fs: Files, sel: set<State>, fs': Files, p: Path, i: nat)
    requires Updated(w, fs, sel, fs') && p in w.indexes && IndexReadable(w, fs, p)
    requires IndexReadable(w, fs', p) && i < |fs[p].entries| && i < |fs'[p].entries|
    ensures var st, st' := StateAt(w, fs, p, i), StateAt(w, fs', p, i);
            st.slug == st'.slug && st.entry.id == st'.entry.id
  {
    StateAfter(w, fs, sel, fs', p, i);
  }

  /** The index names the same experiments in both. */
  ghost predicate SameIndex(w: World, fs: Files, fs': Files, p: Path)
    requires IndexReadable(w, fs, p) && IndexReadable(w, fs', p)
  {
    && |fs[p].entries| == |fs'[p].entries|
    && forall i | 0 <= i < |fs[p].entries| ::
         && StateAt(w, fs, p, i).slug == StateAt(w, fs', p, i).slug
         && StateAt(w, fs, p, i).entry.id == StateAt(w, fs', p, i).entry.id
  }

  lemma {:induction false} StatesOfSame(w: World, fs: Files, fs': Files, p: Path, n: nat)
    requires IndexReadable(w, fs, p) && IndexReadable(w, fs', p) && SameIndex(w, fs, fs', p) && n <= |fs[p].entries|
    ensures SameList(StatesOf(w, fs, p, n), StatesOf(w, fs', p, n))
  {
    if n > 0 {
      StatesOfSame(w, fs, fs', p, n - 1);
      SameListSnoc(StatesOf(w, fs, p, n - 1), StateAt(w, fs, p, n - 1),
                   StatesOf(w, fs', p, n - 1), StateAt(w, fs', p, n - 1));
    }
  }

  lemma {:induction false} IndexStatesSame(w: World, fs: Files, sel: set<State>, fs': Files, p: Path)
    requires Updated(w, fs, sel, fs') && p in w.indexes && IndexReadable(w, fs, p)
    ensures IndexReadable(w, fs', p) && SameList(IndexStates(w, fs, p), IndexStates(w, fs', p))
  {
    IndexAfter(w, fs, sel, fs', p);
    forall i | 0 <= i < |fs[p].entries|
      ensures StateAt(w, fs, p, i).slug == StateAt(w, fs', p, i).slug
      ensures StateAt(w, fs, p, i).entry.id == StateAt(w, fs', p, i).entry.id
    {
      SameExperiment(w, fs, sel, fs', p, i);
    }
    StatesOfSame(w, fs, fs', p, |fs[p].entries|);
  }

  lemma {:induction false} AllStatesSame(w: World, fs: Files, sel: set<State>, fs': Files, k: nat)
    requires Updated(w, fs, sel, fs') && k <= |w.indexes| && Readable(w, fs) && Readable(w, fs')
    ensures SameList(AllStates(w, fs, k), AllStates(w, fs', k))
  {
    if k > 0 {
      var p := w.indexes[k - 1];
      AllStatesSame(w, fs, sel, fs', k - 1);
      IndexStatesSame(w, fs, sel, fs', p);
      SameListConcat(AllStates(w, fs, k - 1), IndexStates(w, fs, p), AllStates(w, fs', k - 1), IndexStates(w, fs', p));
    }
  }

  lemma {:induction false} SameListSnoc(a: seq<State>, x: State, b: seq<State>, y: State)
    requires SameList(a, b) && x.slug == y.slug && x.entry.id == y.entry.id
    ensures SameList(a + [x], b + [y])
  {
  }

  lemma {:induction false} SameListConcat(a: seq<State>, b: seq<State>, a': seq<State>, b': seq<State>)
    requires SameList(a, a') && SameList(b, b')
    ensures SameList(a + b, a' + b')
  {
  }

  lemma {:induction false} RefusedSame(w: World, a: seq<State>, b: seq<State>, ids: seq<string>, paper: Option<string>)
    requires SameList(a, b)
    ensures Refused(w, a, ids, paper) ==> Refused(w, b, ids, paper)
  {
    AmbiguousSame(a, b, ids);
    if UnknownId(a, ids, paper) {
      var i :| 0 <= i < |ids| && !IdKnown(a, ids[i], paper);
      if IdKnown(b, ids[i], paper) {
        IdKnownSame(b, a, ids[i], paper);
      }
    }
  }

  lemma {:induction false} AmbiguousSame(a: seq<State>, b: seq<State>, ids: seq<string>)
    requires SameList(a, b)
    ensures Ambiguous(a, ids) ==> Ambiguous(b, ids)
  {
    if Ambiguous(a, ids) {
      var j, k :| && 0 <= j < |a| && 0 <= k < |a| && a[j].entry.id in ids && a[k].entry.id in ids
                  && a[j].slug != a[k].slug;
      assert b[j].entry.id in ids && b[k].entry.id in ids && b[j].slug != b[k].slug;
    }
  }

  lemma {:induction false} IdKnownSame(a: seq<State>, b: seq<State>, id: string, paper: Option<string>)
    requires SameList(b, a) && IdKnown(a, id, paper)
    ensures IdKnown(b, id, paper)
  {
    var k :| 0 <= k < |a| && InScope(a[k], paper) && a[k].entry.id == id;
    assert InScope(b[k], paper);
  }

  lemma {:induction false} NoneChosenAgain(w: World, fs: Files, ids: seq<string>, paper: Option<string>, fs': Files)
    requires Readable(w, fs) && Readable(w, fs') && Updated(w, fs, Members(Selected(w, fs, ids, paper)), fs')
    ensures Selected(w, fs', ids, paper) == []
  {
    var sel, again := Members(Selected(w, fs, ids, paper)), Selected(w, fs', ids, paper);
    forall st'
      ensures st' !in again
    {
      SelectedMember(w, fs', ids, paper, st');
      if st'.index in w.indexes && IsAt(w, fs', st') {
        var k :| 0 <= k < |w.indexes| && w.indexes[k] == st'.index;
        assert IndexReadable(w, fs, w.indexes[k]);
        IndexAfter(w, fs, sel, fs', st'.index);
        ExperimentAfter(w, fs, ids, paper, fs', st'.index, st'.pos);
      }
    }
    EmptyOrNot(again);
  }

  /** The same update again is accepted or refused alike, and has nothing to write. */
  lemma {:induction false} SecondUpdateIdle(w: World, fs: Files, ids: seq<string>, paper: Option<string>,
                                            records: seq<Path>, fs': Files)
    requires Wrote(w, fs, ids, paper, records, fs') && Apart(w, fs, Members(Selected(w, fs, ids, paper)))
    ensures Readable(w, fs') && Selected(w, fs', ids, paper) == []
    ensures Refused(w, AllStates(w, fs, |w.indexes|), ids, paper)
       <==> Refused(w, AllStates(w, fs', |w.indexes|), ids, paper)
  {
    var sel := Members(Selected(w, fs, ids, paper));
    WroteIsUpdated(w, fs, ids, paper, records, fs');
    StillReadable(w, fs, sel, fs');
    NoneChosenAgain(w, fs, ids, paper, fs');
    AllStatesSame(w, fs, sel, fs', |w.indexes|);
    RefusedSame(w, AllStates(w, fs, |w.indexes|), AllStates(w, fs', |w.indexes|), ids, paper);
    RefusedSame(w, AllStates(w, fs', |w.indexes|), AllStates(w, fs, |w.indexes|), ids, paper);
  }

  // ----- when a full update always repairs -----

  /** No index that has entries is the metadata of an entry. */
  ghost predicate IndexesAreNoMetadata(w: World, fs: Files) {
    forall st: State | st.index in w.indexes && IsAt(w, fs, st) && st.path in w.indexes :: fs[st.path].entries == []
  }

  function FullyWritten(w: World, fs: Files): Files
    requires Readable(w, fs)
  {
    var sel := Selected(w, fs, [], None);
    AllWritten(fs, sel, |Order(sel)|)
  }

  /** Whatever the hash function, a full update leaves nothing for check to complain about. */
  ghost predicate AlwaysRepairs(w: World, fs: Files) {
    forall digest: Doc -> string ::
      var w' := w.(digest := digest); Readable(w', fs) && Clean(w', FullyWritten(w', fs))
  }

  lemma {:induction false} ApartIfNoMetadata(w: World, fs: Files, sel: set<State>)
    requires Readable(w, fs) && IndexesAreNoMetadata(w, fs)
    requires forall st | st in sel :: st.index in w.indexes && IsAt(w, fs, st)
    ensures Apart(w, fs, sel)
  {
    forall st, other: State | st in sel && other.index in w.indexes && IsAt(w, fs, other)
      ensures other.path != st.index
    {
      assert fs[st.index].entries != [];
    }
  }

  lemma {:induction false} SameButDigest(w: World, w': World, fs: Files)
    requires w' == w.(digest := w'.digest) && Readable(w, fs)
    ensures Readable(w', fs) && (IndexesAreNoMetadata(w, fs) ==> IndexesAreNoMetadata(w', fs))
  {
    forall k | 0 <= k < |w'.indexes|
      ensures IndexReadable(w', fs, w'.indexes[k])
    {
      assert IndexReadable(w, fs, w.indexes[k]);
    }
    if IndexesAreNoMetadata(w, fs) {
      forall st: State | st.index in w'.indexes && IsAt(w', fs, st) && st.path in w'.indexes
        ensures fs[st.path].entries == []
      {
        assert IsAt(w, fs, StateAt(w, fs, st.index, st.pos));
      }
    }
  }

  /** Every document is the loaded one with new hashes in its entries, or with a new hash of its own. */
  ghost predicate Derived(d: Doc, d': Doc)
    requires d.Object?
  {
    && d'.Object? && |d'.entries| == |d.entries| && (d'.entries == d.entries || d'.fields == d.fields)
    && forall i | 0 <= i < |d.entries| :: d'.entries[i].path == d.entries[i].path
  }

  ghost predicate AllDerived(fs: Files, now: Files) {
    forall p | p in fs && fs[p].Object? :: p in now && Derived(fs[p], now[p])
  }

  lemma {:induction false} MarkingKeepsPaths(w: World, fs: Files, p: Path, group: seq<State>, n: nat, i: nat)
    requires IsGroup(w, fs, p, group) && Fits(fs[p].entries, group) && n <= |group| && i < |fs[p].entries|
    ensures Marking(fs[p].entries, group, n)[i].path == fs[p].entries[i].path
  {
    if n > 0 {
      MarkingKeepsPaths(w, fs, p, group, n - 1, i);
      assert InGroup(w, fs, p, group, n - 1);
    }
  }

  lemma {:induction false} MetaDerives(w: World, fs: Files, now: Files, p: Path, group: seq<State>, n: nat)
    requires IsGroup(w, fs, p, group) && AllDerived(fs, now) && n <= |group|
    ensures AllDerived(fs, MetaWritten(now, group, n))
  {
    if n > 0 {
      MetaDerives(w, fs, now, p, group, n - 1);
      assert InGroup(w, fs, p, group, n - 1);
    }
  }

  lemma {:induction false} GroupDerives(w: World, fs: Files, now: Files, p: Path, group: seq<State>)
    requires IsGroup(w, fs, p, group) && AllDerived(fs, now)
    ensures AllDerived(fs, GroupWritten(fs, now, p, group))
  {
    GroupFits(w, fs, p, group);
    MetaDerives(w, fs, now, p, group, |group|);
    forall i | 0 <= i < |fs[p].entries|
      ensures Marking(fs[p].entries, group, |group|)[i].path == fs[p].entries[i].path
    {
      MarkingKeepsPaths(w, fs, p, group, |group|, i);
    }
  }

  lemma {:induction false} WritesDerive(w: World, fs: Files, ids: seq<string>, paper: Option<string>, sel: seq<State>,
                                        n: nat)
    requires Readable(w, fs) && sel == Selected(w, fs, ids, paper) && n <= |Order(sel)|
    ensures AllDerived(fs, AllWritten(fs, sel, n))
  {
    if n > 0 {
      WritesDerive(w, fs, ids, paper, sel, n - 1);
      GroupIsGroup(w, fs, ids, paper, sel, n - 1);
      var p := Order(sel)[n - 1];
      GroupDerives(w, fs, AllWritten(fs, sel, n - 1), p, Group(sel, p));
    }
  }

  /** A string longer than every hash among the entries. */
  lemma {:induction false} LongerThan(entries: seq<Entry>) returns (n: nat)
    ensures forall i | 0 <= i < |entries| && entries[i].hash.Some? :: |entries[i].hash.value| < n
  {
    if entries == [] {
      n := 0;
    } else {
      var init, last := entries[..|entries| - 1], entries[|entries| - 1];
      var m := LongerThan(init);
      n := if last.hash.Some? && |last.hash.value| >= m then |last.hash.value| + 1 else m;
      assert entries == init + [last];
    }
  }

  /** Under a hash that nothing carries yet, an index that is metadata ends stale: its last write either drops
      its own hash or its entries' hashes. */
  lemma {:induction false} MetadataIndexStale(w: World, fs: Files, st: State, h: string)
    requires Readable(w, fs) && (forall d :: w.digest(d) == h) && st.index in w.indexes && IsAt(w, fs, st)
    requires st.path in w.indexes && fs[st.path].entries != [] && Stored(fs[st.path]) != Some(h)
    requires forall i | 0 <= i < |fs[st.path].entries| :: fs[st.path].entries[i].hash != Some(h)
    ensures !Clean(w, FullyWritten(w, fs))
  {
    var sel := Selected(w, fs, [], None);
    WritesDerive(w, fs, [], None, sel, |Order(sel)|);
    var now, q := FullyWritten(w, fs), st.path;
    assert Derived(fs[q], now[q]) && Derived(fs[st.index], now[st.index]);
    var a :| 0 <= a < |w.indexes| && w.indexes[a] == st.index;
    var b :| 0 <= b < |w.indexes| && w.indexes[b] == q;
    if Readable(w, now) {
      assert IndexReadable(w, now, w.indexes[a]) && IndexReadable(w, now, w.indexes[b]);
      if now[q].entries == fs[q].entries {
        assert Invalid(StateAt(w, now, w.indexes[b], 0));
      } else {
        assert now[st.index].entries[st.pos].path == fs[st.index].entries[st.pos].path;
        assert Invalid(StateAt(w, now, w.indexes[a], st.pos));
      }
    }
  }

  lemma {:induction false} CannotAlwaysRepair(w: World, fs: Files, st: State)
    requires Readable(w, fs) && st.index in w.indexes && IsAt(w, fs, st) && st.path in w.indexes
    requires fs[st.path].entries != []
    ensures !AlwaysRepairs(w, fs)
  {
    var d := fs[st.path];
    var m := LongerThan(d.entries);
    var n := m + (if Stored(d).Some? then |Stored(d).value| + 1 else 0);
    var h := seq(n, _ => 'x');
    var digest := (d: Doc) => h;
    var w' := w.(digest := digest);
    SameButDigest(w, w', fs);
    var st' := StateAt(w', fs, st.index, st.pos);
    MetadataIndexStale(w', fs, st', h);
    assert !(Readable(w', fs) && Clean(w', FullyWritten(w', fs)));
  }

  lemma {:induction false} RepairsIfApart(w: World, fs: Files)
    requires Readable(w, fs) && IndexesAreNoMetadata(w, fs)
    ensures Clean(w, FullyWritten(w, fs))
  {
    var sel := Selected(w, fs, [], None);
    forall st | st in Members(sel)
      ensures st.index in w.indexes && IsAt(w, fs, st)
    {
      SelectedMember(w, fs, [], None, st);
    }
    ApartIfNoMetadata(w, fs, Members(sel));
    WritesArePatches(w, fs, [], None, sel, |Order(sel)|);
    assert Order(sel)[..|Order(sel)|] == Order(sel);
    AllFinished(sel);
    UpdatedIsClean(w, fs, None, FullyWritten(w, fs));
  }

  /** A full update makes check pass whatever the hash function, if and only if no index that has entries is
      also the metadata of one. */
  lemma {:induction false} AlwaysRepairsIff(w: World, fs: Files)
    requires Readable(w, fs)
    ensures AlwaysRepairs(w, fs) <==> IndexesAreNoMetadata(w, fs)
  {
    if IndexesAreNoMetadata(w, fs) {
      forall digest: Doc -> string
        ensures var w' := w.(digest := digest); Readable(w', fs) && Clean(w', FullyWritten(w', fs))
      {
        SameButDigest(w, w.(digest := digest), fs);
        RepairsIfApart(w.(digest := digest), fs);
      }
    } else {
      var st: State :| && st.index in w.indexes && IsAt(w, fs, st) && st.path in w.indexes
                       && fs[st.path].entries != [];
      CannotAlwaysRepair(w, fs, st);
    }
  }
}
