/** The experiment catalogue's content hashes: what check accepts and what update writes.
    Files are documents under path strings; the hash is any function of the canonical content. */
module ExperimentVersions {
  import opened Common
  import opened Decimal

  type Path = string
  type Fields = map<string, string>

  datatype Entry = Entry(id: string, uid: string, path: string, hash: Option<string>)

  datatype Change = Change(id: string, uid: string, previous: Option<string>, current: string, path: Path)

  /** A JSON object: an index has entries, a change record has changes, metadata has fields.  Nothing keeps
      one file from serving as several of them. */
  datatype Doc = Object(entries: seq<Entry>, fields: Fields, changes: seq<Change>) | Broken

  type Files = map<Path, Doc>

  /** The index files in order, the hash of canonical content, the paper an index belongs to, where an
      index's metadata paths lead, and the directory of its change records. */
  datatype World = World(indexes: seq<Path>, digest: Doc -> string, slug: Path -> string,
                         place: (Path, string) -> Path, changes: Path -> Path)

  const HASH_KEY := "content_hash"

  // ----- hashes -----

  function Canonical(d: Doc): Doc {
    if d.Object? then d.(fields := d.fields - {HASH_KEY}) else d
  }

  function Hash(w: World, d: Doc): string {
    w.digest(Canonical(d))
  }

  function Stored(d: Doc): Option<string> {
    if d.Object? && HASH_KEY in d.fields then Some(d.fields[HASH_KEY]) else None
  }

  function WithHash(d: Doc, h: string): Doc {
    if d.Object? then d.(fields := d.fields[HASH_KEY := h]) else d
  }

  /** Writing the hash into a document does not change its hash. */
  lemma {:induction false} HashIgnoresItself(w: World, d: Doc, h: string)
    requires d.Object?
    ensures Hash(w, WithHash(d, h)) == Hash(w, d) && Stored(WithHash(d, h)) == Some(h)
  {
    assert d.fields[HASH_KEY := h] - {HASH_KEY} == d.fields - {HASH_KEY};
  }

  // ----- experiments -----

  datatype State = State(index: Path, pos: nat, slug: string, entry: Entry, path: Path, metadata: Doc, expected: string)

  predicate IndexReadable(w: World, fs: Files, p: Path) {
    && p in fs && fs[p].Object?
    && forall i | 0 <= i < |fs[p].entries| ::
         var q := w.place(p, fs[p].entries[i].path); q in fs && fs[q].Object?
  }

  /** Nothing that update and check read is missing or broken. */
  predicate Readable(w: World, fs: Files) {
    forall k | 0 <= k < |w.indexes| :: IndexReadable(w, fs, w.indexes[k])
  }

  function StateAt(w: World, fs: Files, p: Path, i: nat): State
    requires IndexReadable(w, fs, p) && i < |fs[p].entries|
  {
    var e := fs[p].entries[i];
    var q := w.place(p, e.path);
    State(p, i, w.slug(p), e, q, fs[q], Hash(w, fs[q]))
  }

  predicate Invalid(st: State) {
    Stored(st.metadata) != Some(st.expected) || st.entry.hash != Some(st.expected)
  }

  function StatesOf(w: World, fs: Files, p: Path, n: nat): seq<State>
    requires IndexReadable(w, fs, p) && n <= |fs[p].entries|
  {
    if n == 0 then [] else StatesOf(w, fs, p, n - 1) + [StateAt(w, fs, p, n - 1)]
  }

  function IndexStates(w: World, fs: Files, p: Path): seq<State>
    requires IndexReadable(w, fs, p)
  {
    StatesOf(w, fs, p, |fs[p].entries|)
  }

  function AllStates(w: World, fs: Files, k: nat): seq<State>
    requires k <= |w.indexes| && forall j | 0 <= j < k :: IndexReadable(w, fs, w.indexes[j])
  {
    if k == 0 then []
    else
      assert IndexReadable(w, fs, w.indexes[k - 1]);
      AllStates(w, fs, k - 1) + IndexStates(w, fs, w.indexes[k - 1])
  }

  function Filter(f: State -> bool, s: seq<State>): seq<State> {
    if s == [] then []
    else
      var init := Filter(f, s[..|s| - 1]);
      if f(s[|s| - 1]) then init + [s[|s| - 1]] else init
  }

  lemma {:induction false} FilterMember(f: State -> bool, s: seq<State>, st: State)
    ensures st in Filter(f, s) <==> st in s && f(st)
  {
    if s != [] {
      FilterMember(f, s[..|s| - 1], st);
      assert s == s[..|s| - 1] + [s[|s| - 1]];
    }
  }

  /** `st` is the state of entry `st.pos` of index `st.index`. */
  ghost predicate IsAt(w: World, fs: Files, st: State) {
    IndexReadable(w, fs, st.index) && st.pos < |fs[st.index].entries| && st == StateAt(w, fs, st.index, st.pos)
  }

  lemma {:induction false} StatesOfMember(w: World, fs: Files, p: Path, n: nat, st: State)
    requires IndexReadable(w, fs, p) && n <= |fs[p].entries|
    ensures st in StatesOf(w, fs, p, n) <==> st.index == p && st.pos < n && IsAt(w, fs, st)
  {
    if n > 0 {
      StatesOfMember(w, fs, p, n - 1, st);
      var init, last := StatesOf(w, fs, p, n - 1), StateAt(w, fs, p, n - 1);
      assert st in init + [last] <==> st in init || st == last;
    }
  }

  lemma {:induction false} IndexStatesMember(w: World, fs: Files, p: Path, st: State)
    requires IndexReadable(w, fs, p)
    ensures st in IndexStates(w, fs, p) <==> st.index == p && IsAt(w, fs, st)
  {
    StatesOfMember(w, fs, p, |fs[p].entries|, st);
  }

  lemma {:induction false} InConcat<T>(a: seq<T>, b: seq<T>, x: T)
    ensures x in a + b <==> x in a || x in b
  {
  }

  /** The states are exactly the entries of the indexes. */
  lemma {:induction false} AllStatesMember(w: World, fs: Files, k: nat, st: State)
    requires k <= |w.indexes| && forall j | 0 <= j < k :: IndexReadable(w, fs, w.indexes[j])
    ensures st in AllStates(w, fs, k) <==> st.index in w.indexes[..k] && IsAt(w, fs, st)
  {
    if k > 0 {
      var p := w.indexes[k - 1];
      AllStatesMember(w, fs, k - 1, st);
      IndexStatesMember(w, fs, p, st);
      InConcat(AllStates(w, fs, k - 1), IndexStates(w, fs, p), st);
      InConcat(w.indexes[..k - 1], [p], st.index);
      assert w.indexes[..k] == w.indexes[..k - 1] + [p];
    }
  }

  // ----- what an update selects -----

  /** No paper named, or an empty name. */
  predicate AnyPaper(paper: Option<string>) {
    paper == None || paper == Some("")
  }

  predicate InScope(st: State, paper: Option<string>) {
    AnyPaper(paper) || st.slug == paper.value
  }

  predicate Wanted(st: State, ids: seq<string>) {
    ids == [] || st.entry.id in ids
  }

  predicate Chosen(st: State, ids: seq<string>, paper: Option<string>) {
    InScope(st, paper) && Wanted(st, ids) && Invalid(st)
  }

  ghost predicate Ambiguous(states: seq<State>, ids: seq<string>) {
    exists j, k :: && 0 <= j < |states| && 0 <= k < |states| && states[j].entry.id in ids && states[k].entry.id in ids
                   && states[j].slug != states[k].slug
  }

  ghost predicate IdKnown(states: seq<State>, id: string, paper: Option<string>) {
    exists k :: 0 <= k < |states| && InScope(states[k], paper) && states[k].entry.id == id
  }

  ghost predicate UnknownId(states: seq<State>, ids: seq<string>, paper: Option<string>) {
    exists i :: 0 <= i < |ids| && !IdKnown(states, ids[i], paper)
  }

  /** The arguments update refuses with code 2. */
  ghost predicate Refused(w: World, states: seq<State>, ids: seq<string>, paper: Option<string>) {
    || (!AnyPaper(paper) && forall k | 0 <= k < |w.indexes| :: w.slug(w.indexes[k]) != paper.value)
    || (AnyPaper(paper) && ids != [] && Ambiguous(states, ids))
    || UnknownId(states, ids, paper)
  }

  /** Every experiment is readable and both its hashes are current. */
  ghost predicate Clean(w: World, fs: Files) {
    && Readable(w, fs)
    && forall k, i | 0 <= k < |w.indexes| && 0 <= i < |fs[w.indexes[k]].entries| ::
         !Invalid(StateAt(w, fs, w.indexes[k], i))
  }

  function Selected(w: World, fs: Files, ids: seq<string>, paper: Option<string>): seq<State>
    requires Readable(w, fs)
  {
    Filter((st: State) => Chosen(st, ids, paper), AllStates(w, fs, |w.indexes|))
  }

  lemma {:induction false} SelectedMember(w: World, fs: Files, ids: seq<string>, paper: Option<string>, st: State)
    requires Readable(w, fs)
    ensures st in Selected(w, fs, ids, paper) <==> st.index in w.indexes && IsAt(w, fs, st) && Chosen(st, ids, paper)
  {
    FilterMember((st: State) => Chosen(st, ids, paper), AllStates(w, fs, |w.indexes|), st);
    AllStatesMember(w, fs, |w.indexes|, st);
    assert w.indexes[..|w.indexes|] == w.indexes;
  }

  lemma {:induction false} EmptyOrNot(s: seq<State>)
    ensures s == [] || exists st :: st in s
  {
    if s != [] {
      assert s[0] in s;
    }
  }

  // ----- record names -----

  function RecordPath(base: string, k: nat): Path {
    base + (if k == 0 then "" else "-" + Numeral(k)) + ".json"
  }

  lemma {:induction false} RecordPathsDiffer(base: string, j: nat, k: nat)
    requires RecordPath(base, j) == RecordPath(base, k)
    ensures j == k
  {
    var x, y := if j == 0 then "" else "-" + Numeral(j), if k == 0 then "" else "-" + Numeral(k);
    var p, q := base + x + ".json", base + y + ".json";
    assert |x| == |y|;
    assert x == p[|base|..|base| + |x|] && y == q[|base|..|base| + |y|];
    if j > 0 && k > 0 {
      assert Numeral(j) == x[1..] && Numeral(k) == y[1..];
      NumeralInjective(j, k);
    }
  }

  /** The first record name that is free; the search ends because the files are finitely many. */
  method FreePath(fs: Files, base: string) returns (path: Path, k: nat)
    ensures path == RecordPath(base, k) && path !in fs
    ensures forall j | 0 <= j < k :: RecordPath(base, j) in fs
  {
    path, k := RecordPath(base, 0), 0;
    var suffix := 1;
    ghost var left := fs.Keys;
    while path in fs
      invariant suffix == k + 1 && path == RecordPath(base, k)
      invariant forall j | 0 <= j < k :: RecordPath(base, j) in fs
      invariant left <= fs.Keys && forall j: nat | k <= j && RecordPath(base, j) in fs :: RecordPath(base, j) in left
      decreases |left|
    {
      left := left - {path};
      forall j: nat | k < j && RecordPath(base, j) in fs
        ensures RecordPath(base, j) in left
      {
        if RecordPath(base, j) == path {
          RecordPathsDiffer(base, j, k);
        }
      }
      path, k := RecordPath(base, suffix), suffix;
      suffix := suffix + 1;
    }
  }

  // ----- groups -----

  function ChangeOf(st: State): Change {
    Change(st.entry.id, st.entry.uid, Stored(st.metadata), st.expected, st.path)
  }

  function Changes(group: seq<State>): (r: seq<Change>)
    ensures |r| == |group| && forall k | 0 <= k < |r| :: r[k] == ChangeOf(group[k])
  {
    seq(|group|, k requires 0 <= k < |group| => ChangeOf(group[k]))
  }

  lemma {:induction false} NextChange(group: seq<State>, j: nat)
    requires j < |group|
    ensures Changes(group[..j + 1]) == Changes(group[..j]) + [ChangeOf(group[j])]
  {
  }

  function JoinIds(changes: seq<Change>): string {
    if changes == [] then ""
    else if |changes| == 1 then changes[0].id
    else changes[0].id + "-" + JoinIds(changes[1..])
  }

  /** The indexes of a selection, in order of first appearance. */
  function Order(sel: seq<State>): seq<Path> {
    if sel == [] then []
    else
      var before := Order(sel[..|sel| - 1]);
      if sel[|sel| - 1].index in before then before else before + [sel[|sel| - 1].index]
  }

  function Group(sel: seq<State>, p: Path): seq<State> {
    Filter((st: State) => st.index == p, sel)
  }

  lemma {:induction false} OrderMember(sel: seq<State>, p: Path)
    ensures p in Order(sel) <==> exists st :: st in sel && st.index == p
  {
    if sel != [] {
      OrderMember(sel[..|sel| - 1], p);
      assert sel == sel[..|sel| - 1] + [sel[|sel| - 1]];
    }
  }

  lemma {:induction false} OrderDistinct(sel: seq<State>, j: nat, k: nat)
    requires j < k < |Order(sel)|
    ensures Order(sel)[j] != Order(sel)[k]
  {
    var before := Order(sel[..|sel| - 1]);
    if k < |before| {
      OrderDistinct(sel[..|sel| - 1], j, k);
    } else {
      assert before[j] in before;
    }
  }

  // ----- the writes -----

  /** The files after the metadata of the first `n` states is written. */
  function MetaWritten(fs: Files, group: seq<State>, n: nat): Files
    requires n <= |group|
  {
    if n == 0 then fs
    else MetaWritten(fs, group, n - 1)[group[n - 1].path := WithHash(group[n - 1].metadata, group[n - 1].expected)]
  }

  predicate Fits(entries: seq<Entry>, group: seq<State>) {
    forall k | 0 <= k < |group| :: group[k].pos < |entries|
  }

  /** The entries in memory after the first `n` states got their hash. */
  function Marking(entries: seq<Entry>, group: seq<State>, n: nat): (r: seq<Entry>)
    requires n <= |group| && Fits(entries, group)
    ensures |r| == |entries|
  {
    if n == 0 then entries
    else
      var st := group[n - 1];
      Marking(entries, group, n - 1)[st.pos := st.entry.(hash := Some(st.expected))]
  }

  /** One index: its metadata files first, then the index as it was loaded, with the new hashes. */
  function GroupWritten(fs0: Files, fs: Files, p: Path, group: seq<State>): Files {
    if p in fs0 && fs0[p].Object? && Fits(fs0[p].entries, group) then
      var loaded := fs0[p];
      MetaWritten(fs, group, |group|)[p := loaded.(entries := Marking(loaded.entries, group, |group|))]
    else fs
  }

  /** The first `n` indexes of a selection, one after the other; `fs0` is what was loaded. */
  function AllWritten(fs0: Files, sel: seq<State>, n: nat): Files
    requires n <= |Order(sel)|
  {
    if n == 0 then fs0
    else GroupWritten(fs0, AllWritten(fs0, sel, n - 1), Order(sel)[n - 1], Group(sel, Order(sel)[n - 1]))
  }

  /** `fs` is `base` with new files, the records, beside it. */
  ghost predicate OnTop(fs: Files, base: Files, records: seq<Path>) {
    && (forall p | p in base :: p in fs && fs[p] == base[p])
    && (forall p | p in fs :: p in base || p in records)
    && (forall k | 0 <= k < |records| :: records[k] !in base && records[k] in fs)
    && (forall j, k | 0 <= j < k < |records| :: records[j] != records[k])
  }

  lemma {:induction false} OverwriteOnTop(fs: Files, base: Files, records: seq<Path>, p: Path, d: Doc)
    requires OnTop(fs, base, records) && p in base
    ensures OnTop(fs[p := d], base[p := d], records)
    ensures SameRecords(records, fs, fs[p := d])
  {
  }

  ghost predicate SameRecords(records: seq<Path>, fs: Files, fs': Files) {
    forall k | 0 <= k < |records| :: records[k] in fs && records[k] in fs' && fs'[records[k]] == fs[records[k]]
  }

  lemma {:induction false} SameRecordsChain(records: seq<Path>, a: Files, b: Files, c: Files)
    requires SameRecords(records, a, b) && SameRecords(records, b, c)
    ensures SameRecords(records, a, c)
  {
  }

  lemma {:induction false} RecordOnTop(fs: Files, base: Files, records: seq<Path>, r: Path, d: Doc)
    requires OnTop(fs, base, records) && r !in fs
    ensures OnTop(fs[r := d], base, records + [r])
  {
  }

  /** The selected states of one index, as loaded. */
  ghost predicate IsGroup(w: World, fs0: Files, p: Path, group: seq<State>) {
    && p in fs0 && fs0[p].Object?
    && forall k {:trigger InGroup(w, fs0, p, group, k)} | 0 <= k < |group| :: InGroup(w, fs0, p, group, k)
  }

  ghost predicate InGroup(w: World, fs0: Files, p: Path, group: seq<State>, k: nat)
    requires k < |group|
  {
    group[k].index == p && IsAt(w, fs0, group[k])
  }

  lemma {:induction false} GroupFits(w: World, fs0: Files, p: Path, group: seq<State>)
    requires IsGroup(w, fs0, p, group)
    ensures Fits(fs0[p].entries, group)
  {
    forall k | 0 <= k < |group|
      ensures group[k].pos < |fs0[p].entries|
    {
      assert InGroup(w, fs0, p, group, k);
    }
  }

  lemma {:induction false} MetaKeys(w: World, fs0: Files, fs: Files, p: Path, group: seq<State>, n: nat)
    requires IsGroup(w, fs0, p, group) && fs.Keys == fs0.Keys && n <= |group|
    ensures MetaWritten(fs, group, n).Keys == fs0.Keys
  {
    if n > 0 {
      MetaKeys(w, fs0, fs, p, group, n - 1);
      assert InGroup(w, fs0, p, group, n - 1);
    }
  }

  /** One more metadata file. */
  lemma {:induction false} MetaNext(w: World, fs0: Files, base: Files, p: Path, group: seq<State>, j: nat, fs: Files,
                                    records: seq<Path>, before: Files)
    requires IsGroup(w, fs0, p, group) && base.Keys == fs0.Keys && j < |group|
    requires OnTop(fs, MetaWritten(base, group, j), records) && SameRecords(records, before, fs)
    ensures var fs' := fs[group[j].path := WithHash(group[j].metadata, group[j].expected)];
            OnTop(fs', MetaWritten(base, group, j + 1), records) && SameRecords(records, before, fs')
  {
    var st := group[j];
    MetaKeys(w, fs0, base, p, group, j);
    assert InGroup(w, fs0, p, group, j);
    OverwriteOnTop(fs, MetaWritten(base, group, j), records, st.path, WithHash(st.metadata, st.expected));
    SameRecordsChain(records, before, fs, fs[st.path := WithHash(st.metadata, st.expected)]);
  }

  /** Each group is of one readable index. */
  lemma {:induction false} GroupIsGroup(w: World, fs: Files, ids: seq<string>, paper: Option<string>, sel: seq<State>,
                                        k: nat)
    requires Readable(w, fs) && sel == Selected(w, fs, ids, paper) && k < |Order(sel)|
    ensures Order(sel)[k] in w.indexes && IsGroup(w, fs, Order(sel)[k], Group(sel, Order(sel)[k]))
  {
    var p := Order(sel)[k];
    OrderMember(sel, p);
    var some :| some in sel && some.index == p;
    SelectedMember(w, fs, ids, paper, some);
    var group := Group(sel, p);
    forall j | 0 <= j < |group|
      ensures InGroup(w, fs, p, group, j)
    {
      GroupMember(sel, p, group[j]);
      SelectedMember(w, fs, ids, paper, group[j]);
    }
  }

  lemma {:induction false} AllKeys(w: World, fs: Files, ids: seq<string>, paper: Option<string>, sel: seq<State>,
                                   n: nat)
    requires Readable(w, fs) && sel == Selected(w, fs, ids, paper) && n <= |Order(sel)|
    ensures AllWritten(fs, sel, n).Keys == fs.Keys
  {
    if n > 0 {
      var p := Order(sel)[n - 1];
      AllKeys(w, fs, ids, paper, sel, n - 1);
      GroupIsGroup(w, fs, ids, paper, sel, n - 1);
      MetaKeys(w, fs, AllWritten(fs, sel, n - 1), p, Group(sel, p), |Group(sel, p)|);
    }
  }

  /** What a whole update writes: the files of the selection, and records beside them. */
  ghost predicate Wrote(w: World, fs: Files, ids: seq<string>, paper: Option<string>, records: seq<Path>, fs': Files) {
    && Readable(w, fs)
    && var sel := Selected(w, fs, ids, paper);
       OnTop(fs', AllWritten(fs, sel, |Order(sel)|), records) && RecordedUpTo(sel, records, |Order(sel)|, fs')
  }

  /** One record per index, in order, listing that index's changes. */
  ghost predicate RecordedUpTo(sel: seq<State>, records: seq<Path>, n: nat, fs: Files) {
    && |records| == n <= |Order(sel)|
    && forall k | 0 <= k < n :: records[k] in fs && fs[records[k]] == RecordOf(Group(sel, Order(sel)[k]))
  }

  function RecordOf(group: seq<State>): Doc {
    Object([], map[], Changes(group))
  }

  // ----- choosing -----

  lemma {:induction false} FilterNarrow(f: State -> bool, g: State -> bool, s: seq<State>)
    requires forall st :: g(st) ==> f(st)
    ensures Filter(g, Filter(f, s)) == Filter(g, s)
  {
    if s != [] {
      var init, last := s[..|s| - 1], s[|s| - 1];
      FilterNarrow(f, g, init);
      if f(last) {
        assert (Filter(f, init) + [last])[..|Filter(f, init) + [last]| - 1] == Filter(f, init);
      }
    }
  }

  lemma {:induction false} FilterNext(f: State -> bool, s: seq<State>, k: nat)
    requires k < |s|
    ensures Filter(f, s[..k + 1]) == if f(s[k]) then Filter(f, s[..k]) + [s[k]] else Filter(f, s[..k])
  {
    assert s[..k + 1][..k] == s[..k];
  }

  lemma {:induction false} TwoMembers(s: set<string>, a: string, b: string)
    requires a in s && b in s && a != b
    ensures |s| > 1
  {
    var rest := s - {a};
    assert b in rest && s == rest + {a};
  }

  lemma {:induction false} SeveralSlugs(states: seq<State>, ids: seq<string>, slugs: set<string>)
    requires slugs == set st | st in states && st.entry.id in ids :: st.slug
    ensures |slugs| > 1 <==> Ambiguous(states, ids)
  {
    if Ambiguous(states, ids) {
      var j, k :| && 0 <= j < |states| && 0 <= k < |states| && states[j].entry.id in ids && states[k].entry.id in ids
                  && states[j].slug != states[k].slug;
      assert states[j] in states && states[k] in states;
      TwoMembers(slugs, states[j].slug, states[k].slug);
    }
    if |slugs| > 1 {
      var a :| a in slugs;
      var rest := slugs - {a};
      assert |rest| == |slugs| - 1;
      var b :| b in rest;
      var x :| x in states && x.entry.id in ids && x.slug == a;
      var y :| y in states && y.entry.id in ids && y.slug == b;
      var j :| 0 <= j < |states| && states[j] == x;
      var k :| 0 <= k < |states| && states[k] == y;
      assert states[j].slug != states[k].slug;
    }
  }

  method Scoped(states: seq<State>, paper: Option<string>) returns (scoped: seq<State>)
    ensures scoped == Filter((st: State) => InScope(st, paper), states)
  {
    ghost var f := (st: State) => InScope(st, paper);
    scoped := [];
    for k := 0 to |states|
      invariant scoped == Filter(f, states[..k])
    {
      FilterNext(f, states, k);
      if InScope(states[k], paper) {
        scoped := scoped + [states[k]];
      }
    }
    assert states[..|states|] == states;
  }

  /** The stale experiments the arguments name, or none when the arguments are refused. */
  method Choose(w: World, states: seq<State>, ids: seq<string>, paper: Option<string>)
      returns (refused: bool, sel: seq<State>)
    ensures refused <==> Refused(w, states, ids, paper)
    ensures !refused ==> sel == Filter((st: State) => Chosen(st, ids, paper), states)
  {
    sel := [];
    if !AnyPaper(paper) {
      if forall k | 0 <= k < |w.indexes| :: w.slug(w.indexes[k]) != paper.value {
        return true, [];
      }
    } else if ids != [] {
      var slugs := set st | st in states && st.entry.id in ids :: st.slug;
      SeveralSlugs(states, ids, slugs);
      if |slugs| > 1 {
        return true, [];
      }
    }
    var scoped := Scoped(states, paper);
    var known := set st | st in scoped :: st.entry.id;
    KnownIds(states, paper, scoped, known);
    if exists i | 0 <= i < |ids| :: ids[i] !in known {
      return true, [];
    }
    ghost var f, g := (st: State) => InScope(st, paper), (st: State) => Chosen(st, ids, paper);
    for k := 0 to |scoped|
      invariant sel == Filter(g, scoped[..k])
    {
      FilterNext(g, scoped, k);
      FilterMember(f, states, scoped[k]);
      if Invalid(scoped[k]) && (ids == [] || scoped[k].entry.id in ids) {
        sel := sel + [scoped[k]];
      }
    }
    assert scoped[..|scoped|] == scoped;
    FilterNarrow(f, g, states);
    refused := false;
  }

  lemma {:induction false} KnownIds(states: seq<State>, paper: Option<string>, scoped: seq<State>, known: set<string>)
    requires scoped == Filter((st: State) => InScope(st, paper), states)
    requires known == set st | st in scoped :: st.entry.id
    ensures forall id :: id in known <==> IdKnown(states, id, paper)
  {
    var f := (st: State) => InScope(st, paper);
    forall id
      ensures id in known <==> IdKnown(states, id, paper)
    {
      if id in known {
        var st :| st in scoped && st.entry.id == id;
        FilterMember(f, states, st);
        var k :| 0 <= k < |states| && states[k] == st;
        assert InScope(states[k], paper);
      }
      if IdKnown(states, id, paper) {
        var k :| 0 <= k < |states| && InScope(states[k], paper) && states[k].entry.id == id;
        FilterMember(f, states, states[k]);
      }
    }
  }

  method GroupByIndex(sel: seq<State>) returns (order: seq<Path>, grouped: map<Path, seq<State>>)
    ensures order == Order(sel)
    ensures forall p | p in order :: p in grouped && grouped[p] == Group(sel, p)
  {
    order, grouped := [], map[];
    for k := 0 to |sel|
      invariant order == Order(sel[..k])
      invariant forall p | p in order :: p in grouped && grouped[p] == Group(sel[..k], p)
    {
      var p := sel[k].index;
      assert sel[..k + 1][..k] == sel[..k];
      GroupNext(sel, k);
      OrderMember(sel[..k], p);
      if p in order {
        grouped := grouped[p := grouped[p] + [sel[k]]];
      } else {
        GroupEmpty(sel[..k], p);
        order, grouped := order + [p], grouped[p := [sel[k]]];
      }
    }
    assert sel[..|sel|] == sel;
  }

  lemma {:induction false} GroupNext(sel: seq<State>, k: nat)
    requires k < |sel|
    ensures forall p ::
              Group(sel[..k + 1], p) == if sel[k].index == p then Group(sel[..k], p) + [sel[k]] else Group(sel[..k], p)
  {
    forall p
      ensures Group(sel[..k + 1], p) == if sel[k].index == p then Group(sel[..k], p) + [sel[k]] else Group(sel[..k], p)
    {
      FilterNext((st: State) => st.index == p, sel, k);
    }
  }

  lemma {:induction false} GroupMember(sel: seq<State>, p: Path, st: State)
    ensures st in Group(sel, p) <==> st in sel && st.index == p
  {
    FilterMember((st: State) => st.index == p, sel, st);
  }

  lemma {:induction false} GroupEmpty(sel: seq<State>, p: Path)
    requires p !in Order(sel)
    ensures Group(sel, p) == []
  {
    OrderMember(sel, p);
    EmptyOrNot(Group(sel, p));
    forall st
      ensures st !in Group(sel, p)
    {
      GroupMember(sel, p, st);
    }
  }

  ghost predicate Loaded(w: World, fs: Files, indexes: map<Path, Doc>) {
    forall k | 0 <= k < |w.indexes| ::
      w.indexes[k] in indexes && w.indexes[k] in fs && indexes[w.indexes[k]] == fs[w.indexes[k]]
  }

  /** The catalogue, with the files that update rewrites. */
  class Catalogue {
    const world: World
    var fs: Files

    constructor (world: World, fs: Files)
      ensures this.world == world && this.fs == fs
    {
      this.world, this.fs := world, fs;
    }

    method Inspect() returns (ok: bool, indexes: map<Path, Doc>, states: seq<State>)
      ensures ok <==> Readable(world, fs)
      ensures ok ==> states == AllStates(world, fs, |world.indexes|) && Loaded(world, fs, indexes)
    {
      ok, indexes, states := true, map[], [];
      for k := 0 to |world.indexes|
        invariant forall j | 0 <= j < k :: IndexReadable(world, fs, world.indexes[j])
        invariant ok && states == AllStates(world, fs, k)
        invariant forall j | 0 <= j < k ::
                    world.indexes[j] in indexes && indexes[world.indexes[j]] == fs[world.indexes[j]]
      {
        var p := world.indexes[k];
        var found, more := InspectIndex(p);
        if !found {
          return false, map[], [];
        }
        indexes, states := indexes[p := fs[p]], states + more;
      }
    }

    method InspectIndex(p: Path) returns (ok: bool, states: seq<State>)
      ensures ok <==> IndexReadable(world, fs, p)
      ensures ok ==> states == IndexStates(world, fs, p)
    {
      if p !in fs || !fs[p].Object? {
        return false, [];
      }
      var entries := fs[p].entries;
      states := [];
      var slug := world.slug(p);
      for i := 0 to |entries|
        invariant |states| == i
        invariant forall j | 0 <= j < i :: var q := world.place(p, entries[j].path); q in fs && fs[q].Object?
        invariant forall j | 0 <= j < i ::
                    var q := world.place(p, entries[j].path);
                    states[j] == State(p, j, slug, entries[j], q, fs[q], Hash(world, fs[q]))
      {
        var q := world.place(p, entries[i].path);
        if q !in fs || !fs[q].Object? {
          return false, [];
        }
        states := states + [State(p, i, slug, entries[i], q, fs[q], Hash(world, fs[q]))];
      }
      ok := true;
      StatesOfAt(world, fs, p, states, |entries|);
      assert states[..|entries|] == states;
    }

    /** The chosen metadata files of one index, and its entries in memory. */
    method WriteFiles(index: Path, loaded: Doc, group: seq<State>, ghost fs0: Files, ghost base: Files,
                      ghost records: seq<Path>)
        returns (entries: seq<Entry>, changes: seq<Change>)
      requires IsGroup(world, fs0, index, group) && loaded == fs0[index] && Fits(loaded.entries, group)
      requires base.Keys == fs0.Keys && OnTop(fs, base, records)
      modifies this
      ensures changes == Changes(group) && entries == Marking(loaded.entries, group, |group|)
      ensures OnTop(fs, MetaWritten(base, group, |group|), records)
      ensures SameRecords(records, old(fs), fs)
    {
      entries, changes := loaded.entries, [];
      for j := 0 to |group|
        invariant changes == Changes(group[..j])
        invariant entries == Marking(loaded.entries, group, j)
        invariant OnTop(fs, MetaWritten(base, group, j), records)
        invariant SameRecords(records, old(fs), fs)
      {
        var st := group[j];
        MetaNext(world, fs0, base, index, group, j, fs, records, old(fs));
        entries := entries[st.pos := st.entry.(hash := Some(st.expected))];
        fs := fs[st.path := WithHash(st.metadata, st.expected)];
        NextChange(group, j);
        changes := changes + [ChangeOf(st)];
      }
      assert group[..|group|] == group;
    }

    /** All writes for one index: each chosen metadata file, the index, and a change record in a new file. */
    method WriteGroup(index: Path, loaded: Doc, group: seq<State>, stem: string, ghost fs0: Files, ghost base: Files,
                      ghost records: seq<Path>)
        returns (record: Path)
      requires IsGroup(world, fs0, index, group) && loaded == fs0[index]
      requires base.Keys == fs0.Keys && OnTop(fs, base, records)
      modifies this
      ensures OnTop(fs, GroupWritten(fs0, base, index, group), records + [record])
      ensures record !in old(fs) && record in fs && fs[record] == RecordOf(group)
      ensures exists k: nat ::
                record == RecordPath(world.changes(index) + "/" + stem + "-" + JoinIds(Changes(group)), k)
      ensures SameRecords(records, old(fs), fs)
    {
      GroupFits(world, fs0, index, group);
      var entries, changes := WriteFiles(index, loaded, group, fs0, base, records);
      MetaKeys(world, fs0, base, index, group, |group|);
      OverwriteOnTop(fs, MetaWritten(base, group, |group|), records, index, loaded.(entries := entries));
      fs := fs[index := loaded.(entries := entries)];
      var name := world.changes(index) + "/" + stem + "-" + JoinIds(changes);
      var suffix: nat;
      record, suffix := FreePath(fs, name);
      RecordOnTop(fs, GroupWritten(fs0, base, index, group), records, record, Object([], map[], changes));
      fs := fs[record := Object([], map[], changes)];
    }

    /** The writes for a selection, index by index. */
    method WriteAll(ghost ids: seq<string>, ghost paper: Option<string>, sel: seq<State>, indexes: map<Path, Doc>,
                    stem: string) returns (records: seq<Path>)
      requires Readable(world, fs) && sel == Selected(world, fs, ids, paper) && Loaded(world, fs, indexes)
      modifies this
      ensures Wrote(world, old(fs), ids, paper, records, fs)
      ensures sel == [] ==> fs == old(fs)
    {
      records := [];
      ghost var fs0 := fs;
      var order, grouped := GroupByIndex(sel);
      for k := 0 to |order|
        invariant OnTop(fs, AllWritten(fs0, sel, k), records) && RecordedUpTo(sel, records, k, fs)
        invariant k == 0 ==> fs == fs0
      {
        var p := order[k];
        ghost var before := fs;
        GroupIsGroup(world, fs0, ids, paper, sel, k);
        AllKeys(world, fs0, ids, paper, sel, k);
        var record := WriteGroup(p, indexes[p], grouped[p], stem, fs0, AllWritten(fs0, sel, k), records);
        RecordedNext(sel, records, k, before, record, fs);
        records := records + [record];
      }
    }

    /** Codes 1 and 2 leave everything as it was; code 0 has written exactly what the selection stands for. */
    method Update(ids: seq<string>, paper: Option<string>, stem: string) returns (code: int, records: seq<Path>)
      modifies this
      ensures !Readable(world, old(fs)) ==> code == 1
      ensures Readable(world, old(fs)) ==>
                code == if Refused(world, AllStates(world, old(fs), |world.indexes|), ids, paper) then 2 else 0
      ensures code != 0 ==> fs == old(fs) && records == []
      ensures code == 0 ==> Wrote(world, old(fs), ids, paper, records, fs)
      ensures code == 0 && Selected(world, old(fs), ids, paper) == [] ==> fs == old(fs)
      ensures forall k | 0 <= k < |records| :: records[k] !in old(fs)
    {
      records := [];
      var ok, indexes, states := Inspect();
      if !ok {
        return 1, [];
      }
      var refused, sel := Choose(world, states, ids, paper);
      if refused {
        return 2, [];
      }
      AllKeys(world, fs, ids, paper, sel, |Order(sel)|);
      records := WriteAll(ids, paper, sel, indexes, stem);
      code := 0;
    }

    /** Zero exactly when every experiment is readable and both its hashes are current. */
    method Check() returns (code: int)
      ensures code == if Clean(world, fs) then 0 else 1
    {
      var ok, _, states := Inspect();
      if !ok {
        return 1;
      }
      code := 0;
      for k := 0 to |states|
        invariant code == if exists j :: 0 <= j < k && Invalid(states[j]) then 1 else 0
      {
        if Invalid(states[k]) {
          code := 1;
        }
      }
      CleanIff(world, fs, states);
    }
  }

  lemma {:induction false} RecordedNext(sel: seq<State>, records: seq<Path>, k: nat, fs: Files, record: Path,
                                        fs': Files)
    requires k < |Order(sel)| && RecordedUpTo(sel, records, k, fs)
    requires SameRecords(records, fs, fs')
    requires record in fs' && fs'[record] == RecordOf(Group(sel, Order(sel)[k]))
    ensures RecordedUpTo(sel, records + [record], k + 1, fs')
  {
  }

  lemma {:induction false} StatesOfAt(w: World, fs: Files, p: Path, states: seq<State>, n: nat)
    requires IndexReadable(w, fs, p) && n <= |fs[p].entries| && n <= |states|
    requires forall j | 0 <= j < n :: states[j] == StateAt(w, fs, p, j)
    ensures states[..n] == StatesOf(w, fs, p, n)
  {
    if n > 0 {
      StatesOfAt(w, fs, p, states, n - 1);
      assert states[..n] == states[..n - 1] + [states[n - 1]];
    }
  }

  lemma {:induction false} CleanIff(w: World, fs: Files, states: seq<State>)
    requires Readable(w, fs) && states == AllStates(w, fs, |w.indexes|)
    ensures Clean(w, fs) <==> forall j | 0 <= j < |states| :: !Invalid(states[j])
  {
    assert w.indexes[..|w.indexes|] == w.indexes;
    if Clean(w, fs) {
      forall j | 0 <= j < |states|
        ensures !Invalid(states[j])
      {
        AllStatesMember(w, fs, |w.indexes|, states[j]);
        var k :| 0 <= k < |w.indexes| && w.indexes[k] == states[j].index;
        assert !Invalid(StateAt(w, fs, w.indexes[k], states[j].pos));
      }
    }
    if forall j | 0 <= j < |states| :: !Invalid(states[j]) {
      forall k, i | 0 <= k < |w.indexes| && 0 <= i < |fs[w.indexes[k]].entries|
        ensures !Invalid(StateAt(w, fs, w.indexes[k], i))
      {
        var st := StateAt(w, fs, w.indexes[k], i);
        AllStatesMember(w, fs, |w.indexes|, st);
        var j :| 0 <= j < |states| && states[j] == st;
      }
    }
  }
}
