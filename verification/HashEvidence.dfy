/** What the content hash is of, and that check and update see every edit of an experiment's metadata. */
module HashEvidence {
  import opened Common
  import opened Decimal
  import opened ExperimentVersions

  /** Two documents have the same canonical content if and only if they agree on everything but the stored hash. */
  lemma {:induction false} CanonicalIff(d: Doc, e: Doc)
    requires d.Object? && e.Object?
    ensures Canonical(d) == Canonical(e)
       <==> && d.entries == e.entries && d.changes == e.changes
            && forall key | key != "content_hash" ::
                 && (key in d.fields <==> key in e.fields)
                 && (key in d.fields ==> d.fields[key] == e.fields[key])
  {
    var a, b := Canonical(d), Canonical(e);
    if a == b {
      forall key | key != "content_hash"
        ensures key in d.fields <==> key in e.fields
        ensures key in d.fields ==> d.fields[key] == e.fields[key]
      {
        assert key in d.fields <==> key in a.fields;
        assert key in e.fields <==> key in b.fields;
      }
    }
  }

  /** The entry's metadata file stores the digest of the rest of itself, and the index repeats it. */
  ghost predicate Current(w: World, e: Entry, d: Doc)
    requires d.Object?
  {
    && "content_hash" in d.fields && e.hash == Some(d.fields["content_hash"])
    && d.fields["content_hash"] == w.digest(Object(d.entries, d.fields - {"content_hash"}, d.changes))
  }

  lemma {:induction false} CurrentIff(w: World, fs: Files, p: Path, i: nat)
    requires IndexReadable(w, fs, p) && i < |fs[p].entries|
    ensures !Invalid(StateAt(w, fs, p, i)) <==> Current(w, fs[p].entries[i], fs[w.place(p, fs[p].entries[i].path)])
  {
  }

  /** Check's answer 0: every file is there and every entry of every index is current. */
  lemma {:induction false} CleanMeans(w: World, fs: Files)
    ensures Clean(w, fs)
       <==> && Readable(w, fs)
            && forall p, i: nat | p in w.indexes && i < |fs[p].entries| ::
                 Current(w, fs[p].entries[i], fs[w.place(p, fs[p].entries[i].path)])
  {
    if Readable(w, fs) {
      if Clean(w, fs) {
        forall p, i: nat | p in w.indexes && i < |fs[p].entries|
          ensures Current(w, fs[p].entries[i], fs[w.place(p, fs[p].entries[i].path)])
        {
          var k :| 0 <= k < |w.indexes| && w.indexes[k] == p;
          assert IndexReadable(w, fs, w.indexes[k]);
          CurrentIff(w, fs, p, i);
        }
      }
      if forall p, i: nat | p in w.indexes && i < |fs[p].entries| ::
           Current(w, fs[p].entries[i], fs[w.place(p, fs[p].entries[i].path)]) {
        forall k, i | 0 <= k < |w.indexes| && 0 <= i < |fs[w.indexes[k]].entries|
          ensures !Invalid(StateAt(w, fs, w.indexes[k], i))
        {
          assert IndexReadable(w, fs, w.indexes[k]);
          CurrentIff(w, fs, w.indexes[k], i);
        }
      }
    }
  }

  /** The digest tells documents apart. */
  ghost predicate Collisionless(w: World) {
    forall d, e | w.digest(d) == w.digest(e) :: d == e
  }

  lemma {:induction false} CurrentOnce(w: World, e: Entry, d: Doc, d': Doc)
    requires d.Object? && d'.Object? && Collisionless(w) && Current(w, e, d) && Current(w, e, d')
    ensures d == d'
  {
    var x, y := Object(d.entries, d.fields - {"content_hash"}, d.changes),
                Object(d'.entries, d'.fields - {"content_hash"}, d'.changes);
    assert x == y;
    forall key
      ensures key in d.fields <==> key in d'.fields
      ensures key in d.fields ==> d.fields[key] == d'.fields[key]
    {
      if key != "content_hash" {
        assert key in d.fields <==> key in x.fields;
        assert key in d'.fields <==> key in y.fields;
      }
    }
    assert d.fields == d'.fields;
  }

  /** Entry `i` of index `p` of a clean catalogue has its metadata file replaced. */
  ghost predicate Replaces(w: World, fs: Files, p: Path, i: nat, d: Doc) {
    && Clean(w, fs) && p in w.indexes && i < |fs[p].entries|
    && (w.place(p, fs[p].entries[i].path) in w.indexes ==>
          d.Object? && d.entries == fs[w.place(p, fs[p].entries[i].path)].entries)
  }

  lemma {:induction false} ReplacedReadable(w: World, fs: Files, p: Path, i: nat, d: Doc, q: Path)
    requires Replaces(w, fs, p, i, d) && q == w.place(p, fs[p].entries[i].path) && d.Object?
    ensures Readable(w, fs[q := d])
    ensures p in fs[q := d] && fs[q := d][p].entries == fs[p].entries
  {
    var fs' := fs[q := d];
    forall k | 0 <= k < |w.indexes|
      ensures IndexReadable(w, fs', w.indexes[k])
    {
      assert IndexReadable(w, fs, w.indexes[k]);
      assert fs'[w.indexes[k]].entries == fs[w.indexes[k]].entries;
    }
    var k :| 0 <= k < |w.indexes| && w.indexes[k] == p;
    assert IndexReadable(w, fs, w.indexes[k]);
  }

  /** Check accepts the catalogue afterwards if and only if the file is what it was; otherwise a full update
      selects the experiment. */
  lemma {:induction false} EveryEditIsSeen(w: World, fs: Files, p: Path, i: nat, d: Doc, q: Path)
    requires Replaces(w, fs, p, i, d) && q == w.place(p, fs[p].entries[i].path) && Collisionless(w)
    ensures q in fs && (Clean(w, fs[q := d]) <==> d == fs[q])
    ensures !d.Object? ==> !Readable(w, fs[q := d])
    ensures d.Object? && d != fs[q] ==>
              && Readable(w, fs[q := d]) && IndexReadable(w, fs[q := d], p) && i < |fs[q := d][p].entries|
              && StateAt(w, fs[q := d], p, i) in Selected(w, fs[q := d], [], None)
  {
    var k :| 0 <= k < |w.indexes| && w.indexes[k] == p;
    assert IndexReadable(w, fs, w.indexes[k]);
    CleanMeans(w, fs);
    if d == fs[q] {
      assert fs[q := d] == fs;
    } else if d.Object? {
      EditIsChosen(w, fs, p, i, d, q);
    } else {
      assert !IndexReadable(w, fs[q := d], p);
    }
  }

  lemma {:induction false} EditIsChosen(w: World, fs: Files, p: Path, i: nat, d: Doc, q: Path)
    requires Replaces(w, fs, p, i, d) && q == w.place(p, fs[p].entries[i].path) && Collisionless(w)
    requires d.Object? && q in fs && d != fs[q] && IndexReadable(w, fs, p)
    ensures Readable(w, fs[q := d]) && !Clean(w, fs[q := d])
    ensures IndexReadable(w, fs[q := d], p) && i < |fs[q := d][p].entries|
    ensures StateAt(w, fs[q := d], p, i) in Selected(w, fs[q := d], [], None)
  {
    var fs' := fs[q := d];
    ReplacedReadable(w, fs, p, i, d, q);
    var k :| 0 <= k < |w.indexes| && w.indexes[k] == p;
    assert IndexReadable(w, fs', w.indexes[k]);
    CleanMeans(w, fs);
    CleanMeans(w, fs');
    CurrentIff(w, fs', p, i);
    if Current(w, fs[p].entries[i], d) {
      CurrentOnce(w, fs[p].entries[i], fs[q], d);
    }
    SelectedMember(w, fs', [], None, StateAt(w, fs', p, i));
  }

  // ----- what an update selects and refuses, said of the files -----

  /** A paper is asked for. */
  predicate Named(paper: Option<string>) {
    paper != None && paper != Some("")
  }

  ghost predicate Lists(w: World, fs: Files, p: Path, i: nat) {
    p in w.indexes && p in fs && fs[p].Object? && i < |fs[p].entries|
  }

  /** The stale experiments of the paper and with the ids asked for, all when nothing is asked for. */
  lemma {:induction false} SelectedIff(w: World, fs: Files, ids: seq<string>, paper: Option<string>, p: Path, i: nat)
    requires Readable(w, fs) && p in w.indexes && IndexReadable(w, fs, p) && i < |fs[p].entries|
    ensures StateAt(w, fs, p, i) in Selected(w, fs, ids, paper)
       <==> && (Named(paper) ==> w.slug(p) == paper.value)
            && (ids == [] || fs[p].entries[i].id in ids)
            && !Current(w, fs[p].entries[i], fs[w.place(p, fs[p].entries[i].path)])
  {
    SelectedMember(w, fs, ids, paper, StateAt(w, fs, p, i));
    CurrentIff(w, fs, p, i);
  }

  /** An id asked for that no listed experiment in the paper's scope has. */
  ghost predicate Missing(w: World, fs: Files, id: string, paper: Option<string>) {
    forall p, i: nat | Lists(w, fs, p, i) && fs[p].entries[i].id == id :: Named(paper) && w.slug(p) != paper.value
  }

  /** Two experiments asked for, in indexes of different papers. */
  ghost predicate InTwoPapers(w: World, fs: Files, ids: seq<string>) {
    exists p, i: nat, q, j: nat ::
      && Lists(w, fs, p, i) && Lists(w, fs, q, j) && w.slug(p) != w.slug(q)
      && fs[p].entries[i].id in ids && fs[q].entries[j].id in ids
  }

  lemma {:induction false} StateOf(w: World, fs: Files, p: Path, i: nat) returns (k: nat)
    requires Readable(w, fs) && Lists(w, fs, p, i)
    ensures IndexReadable(w, fs, p)
    ensures k < |AllStates(w, fs, |w.indexes|)| && AllStates(w, fs, |w.indexes|)[k] == StateAt(w, fs, p, i)
  {
    var j :| 0 <= j < |w.indexes| && w.indexes[j] == p;
    assert IndexReadable(w, fs, w.indexes[j]);
    AllStatesMember(w, fs, |w.indexes|, StateAt(w, fs, p, i));
    assert w.indexes[..|w.indexes|] == w.indexes;
    k :| 0 <= k < |AllStates(w, fs, |w.indexes|)| && AllStates(w, fs, |w.indexes|)[k] == StateAt(w, fs, p, i);
  }

  lemma {:induction false} StateIs(w: World, fs: Files, k: nat)
    requires Readable(w, fs) && k < |AllStates(w, fs, |w.indexes|)|
    ensures var st := AllStates(w, fs, |w.indexes|)[k];
            && Lists(w, fs, st.index, st.pos) && st.slug == w.slug(st.index)
            && st.entry == fs[st.index].entries[st.pos]
  {
    var st := AllStates(w, fs, |w.indexes|)[k];
    AllStatesMember(w, fs, |w.indexes|, st);
    assert w.indexes[..|w.indexes|] == w.indexes;
  }

  lemma {:induction false} MissingIff(w: World, fs: Files, id: string, paper: Option<string>)
    requires Readable(w, fs)
    ensures IdKnown(AllStates(w, fs, |w.indexes|), id, paper) <==> !Missing(w, fs, id, paper)
  {
    var states := AllStates(w, fs, |w.indexes|);
    if IdKnown(states, id, paper) {
      var k :| 0 <= k < |states| && InScope(states[k], paper) && states[k].entry.id == id;
      StateIs(w, fs, k);
      assert Lists(w, fs, states[k].index, states[k].pos);
    }
    if !Missing(w, fs, id, paper) {
      var p, i: nat :| Lists(w, fs, p, i) && fs[p].entries[i].id == id && !(Named(paper) && w.slug(p) != paper.value);
      var k := StateOf(w, fs, p, i);
      assert InScope(states[k], paper);
    }
  }

  lemma {:induction false} TwoPapersIff(w: World, fs: Files, ids: seq<string>)
    requires Readable(w, fs)
    ensures Ambiguous(AllStates(w, fs, |w.indexes|), ids) <==> InTwoPapers(w, fs, ids)
  {
    var states := AllStates(w, fs, |w.indexes|);
    if Ambiguous(states, ids) {
      var j, k :| && 0 <= j < |states| && 0 <= k < |states| && states[j].entry.id in ids && states[k].entry.id in ids
                  && states[j].slug != states[k].slug;
      StateIs(w, fs, j);
      StateIs(w, fs, k);
      assert Lists(w, fs, states[j].index, states[j].pos) && Lists(w, fs, states[k].index, states[k].pos);
    }
    if InTwoPapers(w, fs, ids) {
      var p, i: nat, q, j: nat :|
        && Lists(w, fs, p, i) && Lists(w, fs, q, j) && w.slug(p) != w.slug(q)
        && fs[p].entries[i].id in ids && fs[q].entries[j].id in ids;
      var a := StateOf(w, fs, p, i);
      var b := StateOf(w, fs, q, j);
      assert states[a].slug != states[b].slug;
    }
  }

  /** Update refuses exactly a paper no index belongs to, ids from several papers when none is named, and an id
      that nothing in scope has. */
  lemma {:induction false} RefusedIff(w: World, fs: Files, ids: seq<string>, paper: Option<string>)
    requires Readable(w, fs)
    ensures Refused(w, AllStates(w, fs, |w.indexes|), ids, paper)
       <==> || (Named(paper) && forall p | p in w.indexes :: w.slug(p) != paper.value)
            || (!Named(paper) && InTwoPapers(w, fs, ids))
            || exists id :: id in ids && Missing(w, fs, id, paper)
  {
    var states := AllStates(w, fs, |w.indexes|);
    TwoPapersIff(w, fs, ids);
    UnknownIff(w, fs, ids, paper);
    assert (forall p | p in w.indexes :: Named(paper) ==> w.slug(p) != paper.value)
        <==> forall k | 0 <= k < |w.indexes| :: Named(paper) ==> w.slug(w.indexes[k]) != paper.value;
  }

  lemma {:induction false} UnknownIff(w: World, fs: Files, ids: seq<string>, paper: Option<string>)
    requires Readable(w, fs)
    ensures UnknownId(AllStates(w, fs, |w.indexes|), ids, paper)
       <==> exists id :: id in ids && Missing(w, fs, id, paper)
  {
    var states := AllStates(w, fs, |w.indexes|);
    if UnknownId(states, ids, paper) {
      var i :| 0 <= i < |ids| && !IdKnown(states, ids[i], paper);
      MissingIff(w, fs, ids[i], paper);
      assert ids[i] in ids && Missing(w, fs, ids[i], paper);
    }
    if id :| id in ids && Missing(w, fs, id, paper) {
      MissingIff(w, fs, id, paper);
      var i :| 0 <= i < |ids| && ids[i] == id;
    }
  }

  // ----- what a change record says -----

  /** The change is of the experiment at entry `i` of index `p`: what its file stored, and what it should. */
  ghost predicate Tells(w: World, fs: Files, p: Path, i: nat, c: Change) {
    && Lists(w, fs, p, i) && c.id == fs[p].entries[i].id && c.uid == fs[p].entries[i].uid
    && c.path == w.place(p, fs[p].entries[i].path) && c.path in fs && fs[c.path].Object?
    && var d := fs[c.path];
       && c.previous == (if "content_hash" in d.fields then Some(d.fields["content_hash"]) else None)
       && c.current == w.digest(Object(d.entries, d.fields - {"content_hash"}, d.changes))
  }

  lemma {:induction false} ChangeTells(w: World, fs: Files, ids: seq<string>, paper: Option<string>, st: State)
    requires Readable(w, fs) && st in Selected(w, fs, ids, paper)
    ensures Tells(w, fs, st.index, st.pos, ChangeOf(st))
  {
    SelectedMember(w, fs, ids, paper, st);
  }

  /** Every change in an update's records is of a selected experiment of that record's index. */
  lemma {:induction false} RecordTells(w: World, fs: Files, ids: seq<string>, paper: Option<string>,
                                       records: seq<Path>, fs': Files, k: nat, j: nat) returns (st: State)
    requires Wrote(w, fs, ids, paper, records, fs') && k < |records|
    requires records[k] in fs' && fs'[records[k]].Object? && j < |fs'[records[k]].changes|
    ensures st in Selected(w, fs, ids, paper) && k < |Order(Selected(w, fs, ids, paper))|
    ensures st.index == Order(Selected(w, fs, ids, paper))[k]
    ensures Tells(w, fs, st.index, st.pos, fs'[records[k]].changes[j])
  {
    var sel := Selected(w, fs, ids, paper);
    var group := Group(sel, Order(sel)[k]);
    st := group[j];
    GroupMember(sel, Order(sel)[k], st);
    ChangeTells(w, fs, ids, paper, st);
  }

  /** And every selected experiment is in a record. */
  lemma {:induction false} EverythingIsRecorded(w: World, fs: Files, ids: seq<string>, paper: Option<string>,
                                                records: seq<Path>, fs': Files, st: State) returns (k: nat, j: nat)
    requires Wrote(w, fs, ids, paper, records, fs') && st in Selected(w, fs, ids, paper)
    ensures k < |records| && records[k] in fs' && fs'[records[k]].Object? && j < |fs'[records[k]].changes|
    ensures Tells(w, fs, st.index, st.pos, fs'[records[k]].changes[j])
  {
    var sel := Selected(w, fs, ids, paper);
    OrderMember(sel, st.index);
    k :| 0 <= k < |Order(sel)| && Order(sel)[k] == st.index;
    GroupMember(sel, st.index, st);
    var group := Group(sel, st.index);
    j :| 0 <= j < |group| && group[j] == st;
    ChangeTells(w, fs, ids, paper, st);
  }

  // ----- record names -----

  /** One id stands for itself, and ids are joined by hyphens. */
  lemma {:induction false} JoinedIds(a: seq<Change>, b: seq<Change>)
    ensures |a| == 1 ==> JoinIds(a) == a[0].id
    ensures a != [] && b != [] ==> JoinIds(a + b) == JoinIds(a) + "-" + JoinIds(b)
    decreases |a|
  {
    if |a| > 1 && b != [] {
      assert (a + b)[1..] == a[1..] + b;
      JoinedIds(a[1..], b);
    } else if |a| == 1 && b != [] {
      assert (a + b)[1..] == b;
    }
  }

  /** The first name has no number, the next ones count from one. */
  lemma {:induction false} RecordNames(base: string)
    ensures RecordPath(base, 0) == base + ".json" && RecordPath(base, 1) == base + "-1.json"
  {
    assert Numeral(1) == "1";
  }
}
