/** The notes list engine: the `filtered` value of the notes screen, a
    case-insensitive search followed by one of five sort orders. It reads
    the notes and never changes them: the sort runs on the fresh list that
    the filter returns. */
module ListEngine {
  import opened NoteModel
  import opened Seqs
  import opened Text

  datatype SortMode = Pinned | Newest | Oldest | AZ | ZA

  // ------------------------------------------------------------- searching

  /** A note survives the search when its lower-cased title or body
      includes the lower-cased query (the query is not trimmed). */
  predicate Matches(n: Note, query: string)
  {
    Includes(Lower(n.title), Lower(query)) || Includes(Lower(n.body), Lower(query))
  }

  function MatchesQuery(query: string): Note -> bool
  {
    n => Matches(n, query)
  }

  function Search(notes: seq<Note>, query: string): seq<Note>
  {
    Keep(notes, MatchesQuery(query))
  }

  // ------------------------------------------------------------- comparing

  /** `localeCompare`, modelled as the lexicographic order of code points. */
  function LocaleCompare(a: string, b: string): (r: int)
    ensures -1 <= r <= 1
  {
    if a == [] && b == [] then 0
    else if a == [] then -1
    else if b == [] then 1
    else if a[0] < b[0] then -1
    else if a[0] > b[0] then 1
    else LocaleCompare(a[1..], b[1..])
  }

  lemma {:induction false} LocaleCompareAntisymmetric(a: string, b: string)
    ensures LocaleCompare(a, b) == -LocaleCompare(b, a)
  {
    if a != [] && b != [] && a[0] == b[0] {
      LocaleCompareAntisymmetric(a[1..], b[1..]);
    }
  }

  /** Only equal titles compare as equal. */
  lemma {:induction false} LocaleCompareZero(a: string, b: string)
    ensures LocaleCompare(a, b) == 0 <==> a == b
  {
    if a != [] && b != [] && a[0] == b[0] {
      LocaleCompareZero(a[1..], b[1..]);
      assert a == [a[0]] + a[1..] && b == [b[0]] + b[1..];
    }
  }

  lemma {:induction false} LocaleCompareTransitive(a: string, b: string, c: string)
    requires LocaleCompare(a, b) <= 0 && LocaleCompare(b, c) <= 0
    ensures LocaleCompare(a, c) <= 0
  {
    if a != [] && b != [] && c != [] && a[0] == b[0] == c[0] {
      LocaleCompareTransitive(a[1..], b[1..], c[1..]);
    }
  }

  /** The comparator passed to `list.sort` for each mode: negative puts
      `a` first, positive puts `b` first. */
  function Compare(mode: SortMode, a: Note, b: Note): int
  {
    match mode
    case Pinned =>
      if a.pinned == b.pinned then b.updatedAt - a.updatedAt
      else if a.pinned then -1 else 1
    case Newest => b.updatedAt - a.updatedAt
    case Oldest => a.updatedAt - b.updatedAt
    case AZ => LocaleCompare(a.title, b.title)
    case ZA => LocaleCompare(b.title, a.title)
  }

  lemma CompareAntisymmetric(mode: SortMode, a: Note, b: Note)
    ensures Compare(mode, a, b) == -Compare(mode, b, a)
  {
    if mode.AZ? || mode.ZA? {
      LocaleCompareAntisymmetric(a.title, b.title);
    }
  }

  lemma CompareTransitive(mode: SortMode, a: Note, b: Note, c: Note)
    requires Compare(mode, a, b) <= 0 && Compare(mode, b, c) <= 0
    ensures Compare(mode, a, c) <= 0
  {
    match mode
    case AZ => LocaleCompareTransitive(a.title, b.title, c.title);
    case ZA => LocaleCompareTransitive(c.title, b.title, a.title);
    case _ =>
  }

  /** Two notes tie under `mode` when the comparator returns zero. */
  lemma TieTransitive(mode: SortMode, a: Note, b: Note, c: Note)
    requires Compare(mode, a, c) == 0 && Compare(mode, b, c) == 0
    ensures Compare(mode, a, b) == 0
  {
    CompareAntisymmetric(mode, b, c);
    CompareAntisymmetric(mode, a, b);
    CompareAntisymmetric(mode, a, c);
    CompareTransitive(mode, a, c, b);
    CompareTransitive(mode, b, c, a);
  }

  // --------------------------------------------------------------- sorting

  ghost predicate SortedBy(mode: SortMode, s: seq<Note>)
  {
    forall i, j :: 0 <= i < j < |s| ==> Compare(mode, s[i], s[j]) <= 0
  }

  /** Places `x` after every element of `s` that does not compare above it. */
  function Insert(mode: SortMode, s: seq<Note>, x: Note): (r: seq<Note>)
    ensures multiset(r) == multiset(s) + multiset{x}
  {
    if s == [] then [x]
    else if Compare(mode, x, s[|s| - 1]) < 0 then
      assert s == s[..|s| - 1] + [s[|s| - 1]];
      Insert(mode, s[..|s| - 1], x) + [s[|s| - 1]]
    else s + [x]
  }

  /** `list.sort(comparator)`, a stable sort (ECMAScript 2019 and later),
      here an insertion sort. */
  function Sort(mode: SortMode, s: seq<Note>): (r: seq<Note>)
    ensures multiset(r) == multiset(s)
  {
    if s == [] then []
    else
      assert s == s[..|s| - 1] + [s[|s| - 1]];
      Insert(mode, Sort(mode, s[..|s| - 1]), s[|s| - 1])
  }

  /** Appending an element that compares at least as high as every other
      keeps a list sorted. */
  lemma SortedSnoc(mode: SortMode, s: seq<Note>, y: Note)
    requires SortedBy(mode, s)
    requires forall i :: 0 <= i < |s| ==> Compare(mode, s[i], y) <= 0
    ensures SortedBy(mode, s + [y])
  {
    var r := s + [y];
    forall i, j | 0 <= i < j < |r| ensures Compare(mode, r[i], r[j]) <= 0 {
      assert r[i] == s[i];
    }
  }

  /** Every element of `Insert(mode, s, x)` is below `y` when those of `s` and `x` are. */
  lemma InsertBelow(mode: SortMode, s: seq<Note>, x: Note, y: Note)
    requires forall k :: 0 <= k < |s| ==> Compare(mode, s[k], y) <= 0
    requires Compare(mode, x, y) <= 0
    ensures forall i :: 0 <= i < |Insert(mode, s, x)| ==> Compare(mode, Insert(mode, s, x)[i], y) <= 0
  {
    var ins := Insert(mode, s, x);
    forall i | 0 <= i < |ins| ensures Compare(mode, ins[i], y) <= 0 {
      assert ins[i] in multiset(ins);
      if ins[i] != x {
        assert ins[i] in multiset(s);
        var k :| 0 <= k < |s| && s[k] == ins[i];
      }
    }
  }

  lemma {:induction false} InsertSorted(mode: SortMode, s: seq<Note>, x: Note)
    requires SortedBy(mode, s)
    ensures SortedBy(mode, Insert(mode, s, x))
  {
    if s != [] {
      var front, last := s[..|s| - 1], s[|s| - 1];
      if Compare(mode, x, last) < 0 {
        assert SortedBy(mode, front);
        InsertSorted(mode, front, x);
        assert forall k :: 0 <= k < |front| ==> Compare(mode, front[k], last) <= 0 by {
          forall k | 0 <= k < |front| ensures Compare(mode, front[k], last) <= 0 {
            assert front[k] == s[k];
          }
        }
        var ins := Insert(mode, front, x);
        InsertBelow(mode, front, x, last);
        assert forall i :: 0 <= i < |ins| ==> Compare(mode, ins[i], last) <= 0;
        SortedSnoc(mode, ins, last);
        assert Insert(mode, s, x) == ins + [last];
      } else {
        CompareAntisymmetric(mode, x, last);
        forall i | 0 <= i < |s| ensures Compare(mode, s[i], x) <= 0 {
          if i < |s| - 1 {
            CompareTransitive(mode, s[i], last, x);
          }
        }
        SortedSnoc(mode, s, x);
        assert Insert(mode, s, x) == s + [x];
      }
    }
  }

  lemma {:induction false} SortSorted(mode: SortMode, s: seq<Note>)
    ensures SortedBy(mode, Sort(mode, s))
  {
    if s != [] {
      SortSorted(mode, s[..|s| - 1]);
      InsertSorted(mode, Sort(mode, s[..|s| - 1]), s[|s| - 1]);
    }
  }

  function TiesWith(mode: SortMode, c: Note): Note -> bool
  {
    e => Compare(mode, e, c) == 0
  }

  /** The notes of `s` that tie with `c`, in their order in `s`. */
  function Ties(mode: SortMode, s: seq<Note>, c: Note): seq<Note>
  {
    Keep(s, TiesWith(mode, c))
  }

  lemma KeepOne(mode: SortMode, y: Note, c: Note)
    ensures Ties(mode, [y], c) == if Compare(mode, y, c) == 0 then [y] else []
  {
    assert [y][1..] == [];
  }

  lemma {:induction false} InsertTies(mode: SortMode, s: seq<Note>, x: Note, c: Note)
    ensures Ties(mode, Insert(mode, s, x), c) == Ties(mode, s, c) + Ties(mode, [x], c)
  {
    if s != [] {
      var front, last := s[..|s| - 1], s[|s| - 1];
      if Compare(mode, x, last) < 0 {
        InsertTies(mode, front, x, c);
        assert s == front + [last];
        assert Insert(mode, s, x) == Insert(mode, front, x) + [last];
        PastTies(mode, front, Insert(mode, front, x), last, x, c);
      } else {
        assert Insert(mode, s, x) == s + [x];
        KeepConcat(s, [x], TiesWith(mode, c));
      }
    }
  }

  /** The step of InsertTies where `x` moves past `last`: `x` and `last`
      cannot both tie with `c`, since `x` compares strictly below `last`. */
  lemma PastTies(mode: SortMode, front: seq<Note>, ins: seq<Note>, last: Note, x: Note, c: Note)
    requires Compare(mode, x, last) < 0
    requires Ties(mode, ins, c) == Ties(mode, front, c) + Ties(mode, [x], c)
    ensures Ties(mode, ins + [last], c) == Ties(mode, front + [last], c) + Ties(mode, [x], c)
  {
    var p := TiesWith(mode, c);
    KeepConcat(front, [last], p);
    KeepConcat(ins, [last], p);
    var a, tx, tl := Ties(mode, front, c), Ties(mode, [x], c), Ties(mode, [last], c);
    assert tx == [] || tl == [] by {
      KeepOne(mode, x, c);
      KeepOne(mode, last, c);
      if Compare(mode, x, c) == 0 && Compare(mode, last, c) == 0 {
        TieTransitive(mode, x, last, c);
      }
    }
    if tx == [] {
      assert (a + tx) + tl == a + tl;
      assert (a + tl) + tx == a + tl;
    } else {
      assert (a + tx) + tl == a + tx;
      assert (a + tl) + tx == a + tx;
    }
  }

  /** Stability: the notes that tie with any `c` keep their relative order. */
  lemma {:induction false} SortStable(mode: SortMode, s: seq<Note>, c: Note)
    ensures Ties(mode, Sort(mode, s), c) == Ties(mode, s, c)
  {
    if s != [] {
      var front, last := s[..|s| - 1], s[|s| - 1];
      Snoc(s);
      KeepConcat(front, [last], TiesWith(mode, c));
      var sorted := Sort(mode, front);
      assert Sort(mode, s) == Insert(mode, sorted, last);
      SortStable(mode, front, c);
      InsertTies(mode, sorted, last, c);
    }
  }

  /** The first element of a sorted list compares at most equal to any other. */
  lemma HeadIsLeast(mode: SortMode, t: seq<Note>, y: Note)
    requires SortedBy(mode, t) && t != [] && y in multiset(t)
    ensures Compare(mode, t[0], y) <= 0
  {
    var k :| 0 <= k < |t| && t[k] == y;
    if k == 0 {
      CompareAntisymmetric(mode, y, y);
    }
  }

  /** Two sorted permutations of each other whose heads tie only when they
      are equal have equal heads. */
  lemma HeadsTie(mode: SortMode, t: seq<Note>, u: seq<Note>)
    requires multiset(t) == multiset(u) && t != []
    requires SortedBy(mode, t) && SortedBy(mode, u)
    ensures u != [] && Compare(mode, t[0], u[0]) == 0
  {
    assert t[0] in multiset(u);
    HeadIsLeast(mode, u, t[0]);
    HeadIsLeast(mode, t, u[0]);
    CompareAntisymmetric(mode, t[0], u[0]);
  }

  lemma TailMultiset(t: seq<Note>, u: seq<Note>)
    requires multiset(t) == multiset(u) && t != [] && u != [] && t[0] == u[0]
    ensures multiset(t[1..]) == multiset(u[1..])
  {
    assert t == [t[0]] + t[1..] && u == [u[0]] + u[1..];
    assert multiset(t[1..]) == multiset(t) - multiset{t[0]};
    assert multiset(u[1..]) == multiset(u) - multiset{u[0]};
  }

  /** The ties of a list with a head are those of the head, then those of the tail. */
  lemma TiesCons(mode: SortMode, t: seq<Note>, c: Note)
    requires t != []
    ensures Ties(mode, t, c) == Ties(mode, [t[0]], c) + Ties(mode, t[1..], c)
  {
    assert t == [t[0]] + t[1..];
    KeepConcat([t[0]], t[1..], TiesWith(mode, c));
  }

  /** Under the hypotheses of SortedTiesUnique the heads are equal: the
      head of `t` ties with that of `u`, so both open the same group of ties. */
  lemma SameHead(mode: SortMode, t: seq<Note>, u: seq<Note>)
    requires multiset(t) == multiset(u) && t != []
    requires SortedBy(mode, t) && SortedBy(mode, u)
    requires Ties(mode, t, t[0]) == Ties(mode, u, t[0])
    ensures u != [] && t[0] == u[0]
  {
    HeadsTie(mode, t, u);
    var t0, u0 := t[0], u[0];
    CompareAntisymmetric(mode, t0, t0);
    CompareAntisymmetric(mode, u0, t0);
    TiesCons(mode, t, t0);
    TiesCons(mode, u, t0);
    KeepOne(mode, t0, t0);
    KeepOne(mode, u0, t0);
    assert Ties(mode, t, t0)[0] == t0;
    assert Ties(mode, u, t0)[0] == u0;
  }

  /** Equal heads and equal groups of ties leave equal groups in the tails. */
  lemma TailTies(mode: SortMode, t: seq<Note>, u: seq<Note>, c: Note)
    requires t != [] && u != [] && t[0] == u[0]
    requires Ties(mode, t, c) == Ties(mode, u, c)
    ensures Ties(mode, t[1..], c) == Ties(mode, u[1..], c)
  {
    var h := Ties(mode, [t[0]], c);
    TiesCons(mode, t, c);
    TiesCons(mode, u, c);
    assert Ties(mode, t[1..], c) == Ties(mode, t, c)[|h|..];
    assert Ties(mode, u[1..], c) == Ties(mode, u, c)[|h|..];
  }

  /** A sorted order is fixed by the multiset and the order of each group
      of ties. */
  lemma {:induction false} SortedTiesUnique(mode: SortMode, t: seq<Note>, u: seq<Note>)
    requires multiset(t) == multiset(u)
    requires SortedBy(mode, t) && SortedBy(mode, u)
    requires forall c :: Ties(mode, t, c) == Ties(mode, u, c)
    ensures t == u
  {
    if t != [] {
      SameHead(mode, t, u);
      forall c ensures Ties(mode, t[1..], c) == Ties(mode, u[1..], c) {
        TailTies(mode, t, u, c);
      }
      TailMultiset(t, u);
      assert SortedBy(mode, t[1..]) && SortedBy(mode, u[1..]);
      SortedTiesUnique(mode, t[1..], u[1..]);
      assert t == [t[0]] + t[1..] && u == [u[0]] + u[1..];
    }
  }

  /** Any sorted permutation of `s` that keeps every group of ties in its
      original order is `Sort(mode, s)`: the sort is the stable sort. */
  lemma StableSortUnique(mode: SortMode, s: seq<Note>, t: seq<Note>)
    requires multiset(t) == multiset(s) && SortedBy(mode, t)
    requires forall c :: Ties(mode, t, c) == Ties(mode, s, c)
    ensures t == Sort(mode, s)
  {
    SortSorted(mode, s);
    forall c ensures Ties(mode, t, c) == Ties(mode, Sort(mode, s), c) {
      SortStable(mode, s, c);
    }
    SortedTiesUnique(mode, t, Sort(mode, s));
  }

  /** Where ties only happen between equal notes, a sorted permutation is unique. */
  lemma {:induction false} SortedIdentifiedUnique(mode: SortMode, t: seq<Note>, u: seq<Note>)
    requires multiset(t) == multiset(u)
    requires SortedBy(mode, t) && SortedBy(mode, u)
    requires forall a, b :: a in t && b in t && Compare(mode, a, b) == 0 ==> a == b
    ensures t == u
  {
    if t != [] {
      HeadsTie(mode, t, u);
      assert u[0] in multiset(t);
      assert t[0] == u[0];
      TailMultiset(t, u);
      SortedIdentifiedUnique(mode, t[1..], u[1..]);
    }
  }

  // ------------------------------------------------------- the derived list

  /** The `filtered` memo: search, then sort a fresh list. */
  function Filtered(notes: seq<Note>, query: string, mode: SortMode): seq<Note>
  {
    Sort(mode, Search(notes, query))
  }

  /** A note is shown, as often as it occurs in `notes`, iff it matches
      the query: the list is a permutation of the matching subset. */
  lemma FilteredMembers(notes: seq<Note>, query: string, mode: SortMode, x: Note)
    ensures multiset(Filtered(notes, query, mode))[x] ==
      (if Matches(x, query) then multiset(notes)[x] else 0)
    ensures x in Filtered(notes, query, mode) <==> x in notes && Matches(x, query)
  {
    KeepCount(notes, MatchesQuery(query), x);
    assert x in Filtered(notes, query, mode) <==> multiset(Filtered(notes, query, mode))[x] > 0;
    assert x in notes <==> multiset(notes)[x] > 0;
  }

  /** Searching keeps the surviving notes in the order of `notes`. */
  lemma SearchKeepsOrder(notes: seq<Note>, query: string)
    ensures IsSubseq(Search(notes, query), notes)
  {
    KeepIsSubseq(notes, MatchesQuery(query));
  }

  /** The search is a substring test on the lower-cased texts. */
  lemma MatchesIff(n: Note, query: string)
    ensures Matches(n, query) <==>
      Occurs(Lower(n.title), Lower(query)) || Occurs(Lower(n.body), Lower(query))
  {
    var title, body, q := Lower(n.title), Lower(n.body), Lower(query);
    IncludesIff(title, q);
    IncludesIff(body, q);
    assert Matches(n, query) == (Includes(title, q) || Includes(body, q));
  }

  /** The search ignores case on the query's side: a query and its
      lower-cased form select the same notes. */
  lemma MatchesIgnoresQueryCase(n: Note, query: string)
    ensures Matches(n, query) <==> Matches(n, Lower(query))
  {
    LowerIdempotent(query);
  }

  /** and on the note's side: lower-casing a note's title and body does not
      change whether it matches. */
  lemma MatchesIgnoresNoteCase(n: Note, query: string)
    ensures Matches(n, query) <==> Matches(n.(title := Lower(n.title), body := Lower(n.body)), query)
  {
    LowerIdempotent(n.title);
    LowerIdempotent(n.body);
  }

  /** An empty query keeps every note. */
  lemma EmptyQueryKeepsAll(notes: seq<Note>)
    ensures Search(notes, "") == notes
  {
    forall i | 0 <= i < |notes| ensures MatchesQuery("")(notes[i]) {
      IncludesEmpty(Lower(notes[i].title));
    }
    KeepAll(notes, MatchesQuery(""));
  }

  /** In mode `pinned`, pinned notes come first and each group is newest first. */
  lemma PinnedFirst(notes: seq<Note>, query: string)
    ensures var r := Filtered(notes, query, Pinned);
      forall i, j :: 0 <= i < j < |r| ==>
        (r[i].pinned || !r[j].pinned)
        && (r[i].pinned == r[j].pinned ==> r[i].updatedAt >= r[j].updatedAt)
  {
    SortSorted(Pinned, Search(notes, query));
  }

  lemma NewestFirst(notes: seq<Note>, query: string)
    ensures var r := Filtered(notes, query, Newest);
      forall i, j :: 0 <= i < j < |r| ==> r[i].updatedAt >= r[j].updatedAt
  {
    SortSorted(Newest, Search(notes, query));
  }

  lemma OldestFirst(notes: seq<Note>, query: string)
    ensures var r := Filtered(notes, query, Oldest);
      forall i, j :: 0 <= i < j < |r| ==> r[i].updatedAt <= r[j].updatedAt
  {
    SortSorted(Oldest, Search(notes, query));
  }

  /** Notes with the same title are the same note (for instance, all titles differ). */
  ghost predicate TitlesIdentify(s: seq<Note>)
  {
    forall a, b :: a in s && b in s && a.title == b.title ==> a == b
  }

  /** `za` is the exact reverse of `az` when titles identify notes. */
  lemma ZaReversesAz(notes: seq<Note>, query: string)
    requires TitlesIdentify(notes)
    ensures Filtered(notes, query, ZA) == Reverse(Filtered(notes, query, AZ))
  {
    var s := Search(notes, query);
    var t := Sort(ZA, s);
    var a := Sort(AZ, s);
    var u := Reverse(a);
    ReversePermutes(a);
    SortSorted(ZA, s);
    SortSorted(AZ, s);
    forall i, j | 0 <= i < j < |u| ensures Compare(ZA, u[i], u[j]) <= 0 {
      assert Compare(AZ, a[|a| - 1 - j], a[|a| - 1 - i]) <= 0;
    }
    forall x, y | x in t && y in t && Compare(ZA, x, y) == 0 ensures x == y {
      LocaleCompareZero(y.title, x.title);
      FilteredMembers(notes, query, ZA, x);
      FilteredMembers(notes, query, ZA, y);
    }
    SortedIdentifiedUnique(ZA, t, u);
  }
}
