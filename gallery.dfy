/** The projects gallery: the status and tag options offered to the visitor, the
    filter over the project cards, and the filter state the visitor changes. */
module Gallery {
  import opened Options
  import opened JsString
  import opened Seqs

  /** A project card as the gallery receives it; a missing status is `None`. */
  datatype ProjectCard = ProjectCard(
    name: string,
    path: string,
    kind: string,
    tags: seq<string>,
    status: Option<string>,
    description: string,
    redirectUrl: Option<string>)

  /** One entry of an options list: the lower-cased key and the spelling shown. */
  datatype FilterOption = FilterOption(value: string, caption: string)

  // ---------------------------------------------------------------------------
  // Options lists: first-seen spellings keyed by lower-cased value, sorted by label.
  // ---------------------------------------------------------------------------

  /** `entries.has(value)` on the insertion-ordered entries of the map. */
  predicate HasValue(entries: seq<FilterOption>, value: string)
  {
    exists o :: o in entries && o.value == value
  }

  /** No value is the key of two entries. */
  predicate DistinctValues(entries: seq<FilterOption>)
  {
    forall i, j :: 0 <= i < |entries| && 0 <= j < |entries| && i != j ==> entries[i].value != entries[j].value
  }

  /** The spelling at position `i` is the first one whose lower-casing is `o.value`,
      and `o` is that spelling with its lower-casing. */
  predicate FirstSpellingAt(labels: seq<string>, o: FilterOption, i: int)
  {
    && 0 <= i < |labels|
    && labels[i] == o.caption
    && ToLower(o.caption) == o.value
    && forall k :: 0 <= k < i ==> ToLower(labels[k]) != o.value
  }

  predicate IsFirstSpelling(labels: seq<string>, o: FilterOption)
  {
    exists i :: 0 <= i < |labels| && FirstSpellingAt(labels, o, i)
  }

  /** The entries of the map after the loop over `labels`, in insertion order:
      a spelling is added when its lower-casing is not yet a key. */
  function FirstSeen(labels: seq<string>): (entries: seq<FilterOption>)
    ensures DistinctValues(entries)
  {
    if labels == [] then []
    else
      var entries := FirstSeen(labels[..|labels| - 1]);
      var caption := labels[|labels| - 1];
      if HasValue(entries, ToLower(caption)) then entries
      else entries + [FilterOption(ToLower(caption), caption)]
  }

  /** Every spelling's lower-casing is a key, and every entry is the first spelling
      of its key. */
  lemma {:induction false} FirstSeenFacts(labels: seq<string>)
    ensures forall l :: l in labels ==> HasValue(FirstSeen(labels), ToLower(l))
    ensures forall o :: o in FirstSeen(labels) ==> IsFirstSpelling(labels, o)
    decreases |labels|
  {
    if labels != [] {
      var n := |labels| - 1;
      var init := labels[..n];
      var caption := labels[n];
      FirstSeenFacts(init);
      assert labels == init + [caption];
      var entries := FirstSeen(init);
      forall o | o in FirstSeen(labels) ensures IsFirstSpelling(labels, o) {
        if o in entries {
          var i :| 0 <= i < |init| && FirstSpellingAt(init, o, i);
          assert forall k :: 0 <= k < n ==> labels[k] == init[k];
          assert FirstSpellingAt(labels, o, i);
        } else {
          assert o == FilterOption(ToLower(caption), caption);
          forall k | 0 <= k < n ensures ToLower(labels[k]) != o.value {
            assert labels[k] in init;
          }
          assert FirstSpellingAt(labels, o, n);
        }
      }
      forall l | l in labels ensures HasValue(FirstSeen(labels), ToLower(l)) {
        if l in init {
          var o :| o in entries && o.value == ToLower(l);
          assert o in FirstSeen(labels);
        } else {
          assert l == caption;
        }
      }
    }
  }

  /** Ascending by label, in the lexicographic order of characters. */
  predicate SortedByLabel(entries: seq<FilterOption>)
  {
    forall i, j :: 0 <= i < j < |entries| ==> LexLe(entries[i].caption, entries[j].caption)
  }

  /** One step of the sort: `o` placed before the first entry whose label it does
      not follow. */
  function Insert(o: FilterOption, entries: seq<FilterOption>): (r: seq<FilterOption>)
    ensures multiset(r) == multiset(entries) + multiset{o}
    ensures forall x :: x in r <==> x == o || x in entries
  {
    if entries == [] then [o]
    else if LexLe(o.caption, entries[0].caption) then [o] + entries
    else
      assert entries == [entries[0]] + entries[1..];
      [entries[0]] + Insert(o, entries[1..])
  }

  lemma {:induction false} InsertSorted(o: FilterOption, entries: seq<FilterOption>)
    requires SortedByLabel(entries)
    ensures SortedByLabel(Insert(o, entries))
    decreases |entries|
  {
    if entries != [] && !LexLe(o.caption, entries[0].caption) {
      InsertSorted(o, entries[1..]);
      InsertSortedBehind(o, entries);
    } else if entries != [] {
      InsertSortedFront(o, entries);
    }
  }

  /** `o` goes behind the first entry, into a tail that stays sorted. */
  lemma InsertSortedBehind(o: FilterOption, entries: seq<FilterOption>)
    requires entries != [] && !LexLe(o.caption, entries[0].caption)
    requires SortedByLabel(entries) && SortedByLabel(Insert(o, entries[1..]))
    ensures SortedByLabel(Insert(o, entries))
  {
    var rest := Insert(o, entries[1..]);
    assert Insert(o, entries) == [entries[0]] + rest;
    LexLeTotal(o.caption, entries[0].caption);
    forall x | x in rest ensures LexLe(entries[0].caption, x.caption) {
      if x != o {
        FirstBelowTail(entries, x);
      }
    }
    SortedCons(entries[0], rest);
  }

  /** In a sorted list, the first label comes before every label of the tail. */
  lemma FirstBelowTail(entries: seq<FilterOption>, x: FilterOption)
    requires SortedByLabel(entries) && entries != [] && x in entries[1..]
    ensures LexLe(entries[0].caption, x.caption)
  {
    var k :| 1 <= k < |entries| && entries[k] == x;
  }

  /** A label that comes before every label of a sorted list can head it. */
  lemma SortedCons(e: FilterOption, rest: seq<FilterOption>)
    requires SortedByLabel(rest)
    requires forall x :: x in rest ==> LexLe(e.caption, x.caption)
    ensures SortedByLabel([e] + rest)
  {
    var r := [e] + rest;
    forall i, j | 0 <= i < j < |r| ensures LexLe(r[i].caption, r[j].caption) {
      assert r[j] == rest[j - 1];
      if i > 0 {
        assert r[i] == rest[i - 1];
      }
    }
  }

  /** `o` goes in front of a first entry it does not follow. */
  lemma InsertSortedFront(o: FilterOption, entries: seq<FilterOption>)
    requires entries != [] && LexLe(o.caption, entries[0].caption)
    requires SortedByLabel(entries)
    ensures SortedByLabel(Insert(o, entries))
  {
    assert Insert(o, entries) == [o] + entries;
    forall x | x in entries ensures LexLe(o.caption, x.caption) {
      if x != entries[0] {
        FirstBelowTail(entries, x);
        LexLeTransitive(o.caption, entries[0].caption, x.caption);
      }
    }
    SortedCons(o, entries);
  }

  lemma {:induction false} InsertDistinct(o: FilterOption, entries: seq<FilterOption>)
    requires DistinctValues(entries) && !HasValue(entries, o.value)
    ensures DistinctValues(Insert(o, entries))
    decreases |entries|
  {
    if entries != [] && !LexLe(o.caption, entries[0].caption) {
      var tail := entries[1..];
      assert entries == [entries[0]] + tail;
      assert DistinctValues(tail) by {
        forall i, j | 0 <= i < |tail| && 0 <= j < |tail| && i != j ensures tail[i].value != tail[j].value {
          assert entries[i + 1] == tail[i] && entries[j + 1] == tail[j];
        }
      }
      InsertDistinct(o, tail);
      DistinctCons(entries[0], Insert(o, tail));
      DistinctCons(entries[0], tail);
    } else if entries != [] {
      DistinctCons(o, entries);
    }
  }

  /** An entry in front keeps the values distinct when its value is new. */
  lemma DistinctCons(a: FilterOption, entries: seq<FilterOption>)
    ensures DistinctValues([a] + entries) <==> !HasValue(entries, a.value) && DistinctValues(entries)
  {
    var s := [a] + entries;
    if DistinctValues(s) {
      forall i, j | 0 <= i < |entries| && 0 <= j < |entries| && i != j ensures entries[i].value != entries[j].value {
        assert s[i + 1] == entries[i] && s[j + 1] == entries[j];
      }
      forall o | o in entries ensures o.value != a.value {
        var k :| 0 <= k < |entries| && entries[k] == o;
        assert s[k + 1] == o && s[0] == a;
        assert s[k + 1].value != s[0].value;
      }
    }
    if !HasValue(entries, a.value) && DistinctValues(entries) {
      forall i, j | 0 <= i < |s| && 0 <= j < |s| && i != j ensures s[i].value != s[j].value {
        if i > 0 && j > 0 {
          assert s[i] == entries[i - 1] && s[j] == entries[j - 1];
        } else if i == 0 {
          assert s[j] in entries;
        } else {
          assert s[i] in entries;
        }
      }
    }
  }

  /** `.sort((a, b) => a.label.localeCompare(b.label))`, with the lexicographic order
      of characters for the comparison. */
  function SortByLabel(entries: seq<FilterOption>): (r: seq<FilterOption>)
    ensures multiset(r) == multiset(entries)
    ensures SortedByLabel(r)
    ensures DistinctValues(entries) ==> DistinctValues(r)
  {
    if entries == [] then []
    else
      var rest := SortByLabel(entries[1..]);
      assert entries == [entries[0]] + entries[1..];
      InsertSorted(entries[0], rest);
      DistinctCons(entries[0], entries[1..]);
      assert forall x :: x in rest <==> x in entries[1..] by {
        forall x ensures x in rest <==> x in entries[1..] {
          assert x in rest <==> x in multiset(rest);
          assert x in entries[1..] <==> x in multiset(entries[1..]);
        }
      }
      assert DistinctValues(entries) ==> !HasValue(rest, entries[0].value);
      if DistinctValues(entries) then
        InsertDistinct(entries[0], rest);
        Insert(entries[0], rest)
      else Insert(entries[0], rest)
  }

  /** An options list as the gallery shows it: one entry per key, in label order,
      each the first spelling of its key in `labels`, every spelling's key present,
      and a rearrangement of the first-seen entries. */
  predicate IsOptionsList(options: seq<FilterOption>, labels: seq<string>)
  {
    && multiset(options) == multiset(FirstSeen(labels))
    && DistinctValues(options)
    && SortedByLabel(options)
    && (forall l :: l in labels ==> HasValue(options, ToLower(l)))
    && (forall o :: o in options ==> IsFirstSpelling(labels, o))
  }

  /** The sorted first-seen entries form the options list. */
  lemma SortedFirstSeen(labels: seq<string>)
    ensures IsOptionsList(SortByLabel(FirstSeen(labels)), labels)
  {
    var entries := FirstSeen(labels);
    var options := SortByLabel(entries);
    FirstSeenFacts(labels);
    forall o ensures o in options <==> o in entries {
      assert o in options <==> o in multiset(options);
      assert o in entries <==> o in multiset(entries);
    }
  }

  /** Two label-sorted rearrangements of the same entries with distinct keys are
      equal: the options list does not depend on the order the entries came in. */
  lemma {:induction false} OptionsListUnique(a: seq<FilterOption>, b: seq<FilterOption>)
    requires multiset(a) == multiset(b) && SortedByLabel(a) && SortedByLabel(b)
    requires DistinctValues(a)
    requires forall o :: o in a ==> ToLower(o.caption) == o.value
    ensures a == b
    decreases |a|
  {
    if a != [] {
      assert a[0] in multiset(b) && b[0] in multiset(a);
      assert a[0] in b && b[0] in a;
      SortedHeadFirst(a, b[0]);
      SortedHeadFirst(b, a[0]);
      LexLeAntisymmetric(a[0].caption, b[0].caption);
      assert a[0].value == b[0].value;
      DistinctSameValue(a, a[0], b[0]);
      assert a == [a[0]] + a[1..] && b == [b[0]] + b[1..];
      assert multiset(a) == multiset{a[0]} + multiset(a[1..]);
      assert multiset(b) == multiset{a[0]} + multiset(b[1..]);
      assert multiset(a[1..]) == multiset(a) - multiset{a[0]};
      assert multiset(b[1..]) == multiset(b) - multiset{a[0]};
      SortedTail(a);
      SortedTail(b);
      DistinctTail(a);
      OptionsListUnique(a[1..], b[1..]);
    }
  }

  lemma SortedHeadFirst(a: seq<FilterOption>, x: FilterOption)
    requires SortedByLabel(a) && x in a
    ensures LexLe(a[0].caption, x.caption)
  {
    var k :| 0 <= k < |a| && a[k] == x;
    if k == 0 {
      LexLeTotal(x.caption, x.caption);
    }
  }

  lemma DistinctSameValue(a: seq<FilterOption>, x: FilterOption, y: FilterOption)
    requires DistinctValues(a) && x in a && y in a && x.value == y.value
    ensures x == y
  {
    var i :| 0 <= i < |a| && a[i] == x;
    var j :| 0 <= j < |a| && a[j] == y;
  }

  lemma SortedTail(a: seq<FilterOption>)
    requires SortedByLabel(a) && a != []
    ensures SortedByLabel(a[1..])
  {
    forall i, j | 0 <= i < j < |a[1..]| ensures LexLe(a[1..][i].caption, a[1..][j].caption) {
      assert a[1..][i] == a[i + 1] && a[1..][j] == a[j + 1];
    }
  }

  lemma DistinctTail(a: seq<FilterOption>)
    requires DistinctValues(a) && a != []
    ensures DistinctValues(a[1..])
  {
    forall i, j | 0 <= i < |a[1..]| && 0 <= j < |a[1..]| && i != j ensures a[1..][i].value != a[1..][j].value {
      assert a[1..][i] == a[i + 1] && a[1..][j] == a[j + 1];
    }
  }

  // ---------------------------------------------------------------------------
  // Status options.
  // ---------------------------------------------------------------------------

  /** `project.status ?? "Uncategorized"` */
  function StatusLabel(p: ProjectCard): string
  {
    p.status.GetOr("Uncategorized")
  }

  /** The status spellings of the projects, in order. */
  function StatusLabels(projects: seq<ProjectCard>): (labels: seq<string>)
    ensures |labels| == |projects|
    ensures forall i :: 0 <= i < |projects| ==> labels[i] == StatusLabel(projects[i])
  {
    if projects == [] then []
    else StatusLabels(projects[..|projects| - 1]) + [StatusLabel(projects[|projects| - 1])]
  }

  /** The first-seen entries of `labels` extended by one more spelling. */
  lemma FirstSeenSnoc(labels: seq<string>, caption: string)
    ensures FirstSeen(labels + [caption]) ==
      if HasValue(FirstSeen(labels), ToLower(caption)) then FirstSeen(labels)
      else FirstSeen(labels) + [FilterOption(ToLower(caption), caption)]
  {
    assert (labels + [caption])[..|labels|] == labels;
  }

  /** `statusOptions`: a loop filling the map of first-seen statuses, then the sort. */
  method StatusOptions(projects: seq<ProjectCard>) returns (options: seq<FilterOption>)
    ensures IsOptionsList(options, StatusLabels(projects))
  {
    var entries: seq<FilterOption> := [];
    for i := 0 to |projects|
      invariant entries == FirstSeen(StatusLabels(projects[..i]))
    {
      var caption := StatusLabel(projects[i]);
      var value := ToLower(caption);
      assert StatusLabels(projects[..i + 1]) == StatusLabels(projects[..i]) + [caption];
      FirstSeenSnoc(StatusLabels(projects[..i]), caption);
      if !HasValue(entries, value) {
        entries := entries + [FilterOption(value, caption)];
      }
    }
    assert projects[..|projects|] == projects;
    options := SortByLabel(entries);
    SortedFirstSeen(StatusLabels(projects));
  }

  /** Every project's lower-cased status is one of the status options. */
  lemma StatusOptionsCoverProjects(options: seq<FilterOption>, projects: seq<ProjectCard>, p: ProjectCard)
    requires IsOptionsList(options, StatusLabels(projects)) && p in projects
    ensures HasValue(options, ToLower(StatusLabel(p)))
  {
    var i :| 0 <= i < |projects| && projects[i] == p;
    assert StatusLabels(projects)[i] == StatusLabel(p);
  }

  // ---------------------------------------------------------------------------
  // Tag options.
  // ---------------------------------------------------------------------------

  /** The tags of all projects, project by project, in order. */
  function AllTags(projects: seq<ProjectCard>): seq<string>
  {
    if projects == [] then []
    else AllTags(projects[..|projects| - 1]) + projects[|projects| - 1].tags
  }

  lemma {:induction false} AllTagsMembers(projects: seq<ProjectCard>, p: ProjectCard, t: string)
    requires p in projects && t in p.tags
    ensures t in AllTags(projects)
    decreases |projects|
  {
    var n := |projects| - 1;
    if projects[n] != p {
      assert p in projects[..n] by {
        var i :| 0 <= i < |projects| && projects[i] == p;
        assert projects[..n][i] == p;
      }
      AllTagsMembers(projects[..n], p, t);
    }
  }

  /** `tagOptions`: nested loops over the projects and their tags filling the map
      of first-seen tags, then the sort. */
  method TagOptions(projects: seq<ProjectCard>) returns (options: seq<FilterOption>)
    ensures IsOptionsList(options, AllTags(projects))
  {
    var entries: seq<FilterOption> := [];
    for i := 0 to |projects|
      invariant entries == FirstSeen(AllTags(projects[..i]))
    {
      var tags := projects[i].tags;
      ghost var seen := AllTags(projects[..i]);
      assert seen + tags[..0] == seen;
      for j := 0 to |tags|
        invariant entries == FirstSeen(seen + tags[..j])
      {
        var tag := tags[j];
        var value := ToLower(tag);
        FirstSeenStep(seen, tags, j);
        if !HasValue(entries, value) {
          entries := entries + [FilterOption(value, tag)];
        }
      }
      AllTagsStep(projects, i);
    }
    assert projects[..|projects|] == projects;
    options := SortByLabel(entries);
    SortedFirstSeen(AllTags(projects));
  }

  /** One more tag seen by the inner loop of `tagOptions`. */
  lemma FirstSeenStep(seen: seq<string>, tags: seq<string>, j: nat)
    requires j < |tags|
    ensures FirstSeen(seen + tags[..j + 1]) ==
      if HasValue(FirstSeen(seen + tags[..j]), ToLower(tags[j])) then FirstSeen(seen + tags[..j])
      else FirstSeen(seen + tags[..j]) + [FilterOption(ToLower(tags[j]), tags[j])]
  {
    assert seen + tags[..j + 1] == (seen + tags[..j]) + [tags[j]];
    FirstSeenSnoc(seen + tags[..j], tags[j]);
  }

  /** One more project seen by the outer loop of `tagOptions`. */
  lemma AllTagsStep(projects: seq<ProjectCard>, i: nat)
    requires i < |projects|
    ensures AllTags(projects[..i + 1]) == AllTags(projects[..i]) + projects[i].tags[..|projects[i].tags|]
  {
    assert projects[..i + 1][..i] == projects[..i];
    assert projects[i].tags[..|projects[i].tags|] == projects[i].tags;
  }

  /** Every tag of every project appears, lower-cased, among the tag options. */
  lemma TagOptionsCoverProjects(options: seq<FilterOption>, projects: seq<ProjectCard>, p: ProjectCard, t: string)
    requires IsOptionsList(options, AllTags(projects)) && p in projects && t in p.tags
    ensures HasValue(options, ToLower(t))
  {
    AllTagsMembers(projects, p, t);
  }

  // ---------------------------------------------------------------------------
  // The project filter.
  // ---------------------------------------------------------------------------

  /** `searchTerm.trim().toLowerCase()` */
  function SearchKey(searchTerm: string): (k: string)
    ensures k == [] <==> AllWhitespace(searchTerm)
    ensures ToLower(k) == k
  {
    ToLowerIdempotent(Trim(searchTerm));
    ToLower(Trim(searchTerm))
  }

  /** `project.status?.toLowerCase() ?? "uncategorized"` */
  function StatusValue(p: ProjectCard): (v: string)
    ensures v == ToLower(StatusLabel(p))
  {
    match p.status
    case None => LowerUncategorized(); "uncategorized"
    case Some(s) => ToLower(s)
  }

  lemma UncategorizedPieces()
    ensures "Uncategorized" == "Uncat" + "egorized" && "uncategorized" == "uncat" + "egorized"
  {
  }

  lemma LowerUncat()
    ensures ToLower("Uncat") == "uncat"
  {
  }

  lemma LowerEgorized()
    ensures ToLower("egorized") == "egorized"
  {
    LowerUnchanged("egorized");
  }

  lemma LowerUncategorized()
    ensures ToLower("Uncategorized") == "uncategorized"
  {
    UncategorizedPieces();
    LowerUncat();
    LowerEgorized();
    ToLowerConcat("Uncat", "egorized");
  }

  /** The three conditions on which a project is kept. */
  predicate MatchesName(p: ProjectCard, searchTerm: string)
  {
    Contains(ToLower(p.name), SearchKey(searchTerm))
  }

  predicate MatchesStatus(p: ProjectCard, statusFilter: string)
  {
    statusFilter == "all" || StatusValue(p) == statusFilter
  }

  predicate MatchesTags(p: ProjectCard, selectedTags: seq<string>)
  {
    |selectedTags| == 0 || forall t :: t in selectedTags ==> t in LowerAll(p.tags)
  }

  predicate Keeps(p: ProjectCard, searchTerm: string, statusFilter: string, selectedTags: seq<string>): (b: bool)
    ensures !HasActive(searchTerm, statusFilter, selectedTags) ==> b
  {
    ContainsEmpty(ToLower(p.name));
    MatchesName(p, searchTerm) && MatchesStatus(p, statusFilter) && MatchesTags(p, selectedTags)
  }

  /** `filteredProjects`: the kept projects, in their order. */
  function FilterProjects(projects: seq<ProjectCard>, searchTerm: string, statusFilter: string, selectedTags: seq<string>): (r: seq<ProjectCard>)
    ensures IsSubsequence(r, projects)
    ensures forall p :: p in r <==> p in projects && Keeps(p, searchTerm, statusFilter, selectedTags)
    ensures forall p :: Keeps(p, searchTerm, statusFilter, selectedTags) ==> multiset(r)[p] == multiset(projects)[p]
  {
    if projects == [] then []
    else
      var rest := FilterProjects(projects[1..], searchTerm, statusFilter, selectedTags);
      assert projects == [projects[0]] + projects[1..];
      assert multiset(projects) == multiset{projects[0]} + multiset(projects[1..]);
      assert multiset([projects[0]] + rest) == multiset{projects[0]} + multiset(rest);
      SubsequenceSkip(rest, projects[0], projects[1..]);
      if Keeps(projects[0], searchTerm, statusFilter, selectedTags) then [projects[0]] + rest else rest
  }

  /** When every project is kept, the filter returns the list unchanged. */
  lemma {:induction false} FilterKeepsAll(projects: seq<ProjectCard>, searchTerm: string, statusFilter: string, selectedTags: seq<string>)
    requires forall p :: p in projects ==> Keeps(p, searchTerm, statusFilter, selectedTags)
    ensures FilterProjects(projects, searchTerm, statusFilter, selectedTags) == projects
    decreases |projects|
  {
    if projects != [] {
      var rest := projects[1..];
      KeepsTail(projects, searchTerm, statusFilter, selectedTags);
      FilterKeepsAll(rest, searchTerm, statusFilter, selectedTags);
      FilterKeepsHead(projects, searchTerm, statusFilter, selectedTags);
      assert projects == [projects[0]] + rest;
    }
  }

  lemma KeepsTail(projects: seq<ProjectCard>, searchTerm: string, statusFilter: string, selectedTags: seq<string>)
    requires projects != []
    requires forall p :: p in projects ==> Keeps(p, searchTerm, statusFilter, selectedTags)
    ensures Keeps(projects[0], searchTerm, statusFilter, selectedTags)
    ensures forall p :: p in projects[1..] ==> Keeps(p, searchTerm, statusFilter, selectedTags)
  {
    assert projects[0] in projects;
    assert forall p :: p in projects[1..] ==> p in projects;
  }

  /** A kept first project stays at the front of the filtered list. */
  lemma FilterKeepsHead(projects: seq<ProjectCard>, searchTerm: string, statusFilter: string, selectedTags: seq<string>)
    requires projects != [] && Keeps(projects[0], searchTerm, statusFilter, selectedTags)
    ensures FilterProjects(projects, searchTerm, statusFilter, selectedTags) ==
      [projects[0]] + FilterProjects(projects[1..], searchTerm, statusFilter, selectedTags)
  {
  }

  /** `hasActiveFilters` */
  predicate HasActive(searchTerm: string, statusFilter: string, selectedTags: seq<string>): (b: bool)
    ensures !b <==> SearchKey(searchTerm) == [] && statusFilter == "all" && selectedTags == []
  {
    |Trim(searchTerm)| > 0 || statusFilter != "all" || |selectedTags| > 0
  }

  /** With no filter active, every project is shown. */
  lemma InactiveFiltersKeepAll(projects: seq<ProjectCard>, searchTerm: string, statusFilter: string, selectedTags: seq<string>)
    requires !HasActive(searchTerm, statusFilter, selectedTags)
    ensures FilterProjects(projects, searchTerm, statusFilter, selectedTags) == projects
  {
    FilterKeepsAll(projects, searchTerm, statusFilter, selectedTags);
  }

  /** The initial filters are not active: no search term, status "all", no tag. */
  lemma DefaultFiltersInactive()
    ensures !HasActive("", "all", [])
  {
    assert AllWhitespace("");
  }

  /** Picking a status option, with no search term and no tag, shows exactly the
      projects whose status has that key. */
  lemma StatusFilterSelects(projects: seq<ProjectCard>, o: FilterOption, p: ProjectCard)
    requires o.value != "all"
    ensures p in FilterProjects(projects, "", o.value, []) <==>
      p in projects && ToLower(StatusLabel(p)) == o.value
  {
    var r := FilterProjects(projects, "", o.value, []);
    assert p in r <==> p in projects && Keeps(p, "", o.value, []);
    KeepsByStatus(p, o.value);
  }

  /** A status spelt "All", in any letter case, gives an option whose value is the
      sentinel "all": picking it, with no search term and no tag, shows every
      project, not only those with that status. */
  lemma StatusSpeltAllShowsEverything(options: seq<FilterOption>, projects: seq<ProjectCard>, p: ProjectCard)
    requires IsOptionsList(options, StatusLabels(projects)) && p in projects
    requires ToLower(StatusLabel(p)) == "all"
    ensures HasValue(options, "all")
    ensures FilterProjects(projects, "", "all", []) == projects
  {
    StatusOptionsCoverProjects(options, projects, p);
    DefaultFiltersInactive();
    InactiveFiltersKeepAll(projects, "", "all", []);
  }

  /** With no search term and no tag, the status filter alone decides. */
  lemma KeepsByStatus(p: ProjectCard, statusFilter: string)
    requires statusFilter != "all"
    ensures Keeps(p, "", statusFilter, []) <==> ToLower(StatusLabel(p)) == statusFilter
  {
    SearchKeyEmpty();
    ContainsEmpty(ToLower(p.name));
  }

  lemma SearchKeyEmpty()
    ensures SearchKey("") == ""
  {
    assert AllWhitespace("");
  }

  // ---------------------------------------------------------------------------
  // Toggling a tag.
  // ---------------------------------------------------------------------------

  /** `current.filter((value) => value !== tagValue)` */
  function RemoveAll(s: seq<string>, v: string): (r: seq<string>)
    ensures IsSubsequence(r, s)
    ensures v !in r
    ensures forall x :: x != v ==> multiset(r)[x] == multiset(s)[x]
  {
    if s == [] then []
    else
      var rest := RemoveAll(s[1..], v);
      assert s == [s[0]] + s[1..];
      SubsequenceSkip(rest, s[0], s[1..]);
      if s[0] != v then [s[0]] + rest else rest
  }

  /** The selection after `toggleTag(v)`. */
  function Toggled(s: seq<string>, v: string): (r: seq<string>)
    ensures v in r <==> v !in s
    ensures forall x :: x != v ==> multiset(r)[x] == multiset(s)[x]
  {
    if v in s then RemoveAll(s, v) else s + [v]
  }

  /** No tag is selected twice. */
  predicate NoDuplicates(s: seq<string>)
  {
    forall x :: x in s ==> multiset(s)[x] <= 1
  }

  /** An absent value is appended at the end. */
  lemma ToggleAppendsAbsent(s: seq<string>, v: string)
    requires v !in s
    ensures Toggled(s, v) == s + [v]
  {
  }

  /** A present value is removed everywhere; the rest stays, in order. */
  lemma ToggleRemovesPresent(s: seq<string>, v: string)
    requires v in s
    ensures v !in Toggled(s, v)
    ensures IsSubsequence(Toggled(s, v), s)
    ensures forall x :: x != v ==> multiset(Toggled(s, v))[x] == multiset(s)[x]
  {
  }

  /** `v` is selected afterwards exactly when it was not before; nothing else changes. */
  lemma ToggleFlipsMembership(s: seq<string>, v: string, x: string)
    ensures x in Toggled(s, v) <==> if x == v then v !in s else x in s
  {
    assert x in Toggled(s, v) <==> x in multiset(Toggled(s, v));
    assert x in s <==> x in multiset(s);
  }

  lemma {:induction false} RemoveAllAbsent(s: seq<string>, v: string)
    requires v !in s
    ensures RemoveAll(s, v) == s
  {
    if s != [] {
      assert s == [s[0]] + s[1..];
      RemoveAllAbsent(s[1..], v);
    }
  }

  lemma {:induction false} RemoveAllLast(s: seq<string>, v: string)
    requires v !in s
    ensures RemoveAll(s + [v], v) == s
  {
    if s == [] {
      assert [v][1..] == [];
    } else {
      assert (s + [v])[1..] == s[1..] + [v];
      assert s == [s[0]] + s[1..];
      RemoveAllLast(s[1..], v);
    }
  }

  /** Toggling an absent value twice gives back the selection. */
  lemma ToggleTwiceRestores(s: seq<string>, v: string)
    requires v !in s
    ensures Toggled(Toggled(s, v), v) == s
  {
    RemoveAllLast(s, v);
  }

  /** Toggling keeps every tag selected at most once. */
  lemma ToggleKeepsNoDuplicates(s: seq<string>, v: string)
    requires NoDuplicates(s)
    ensures NoDuplicates(Toggled(s, v))
  {
    if v !in s {
      assert multiset(s)[v] == 0;
    }
  }

  // ---------------------------------------------------------------------------
  // The filter state.
  // ---------------------------------------------------------------------------

  /** The three filters the visitor sets, with the operations of the gallery. */
  class FilterState {
    var searchTerm: string
    var statusFilter: string
    var selectedTags: seq<string>

    /** Only toggling and resetting change the selection, so no tag is in it twice. */
    predicate Valid()
      reads this
    {
      NoDuplicates(selectedTags)
    }

    /** The initial state: no search term, every status, no tag. */
    constructor()
      ensures searchTerm == "" && statusFilter == "all" && selectedTags == []
      ensures Valid() && !HasActiveFilters()
    {
      searchTerm := "";
      statusFilter := "all";
      selectedTags := [];
      new;
      DefaultFiltersInactive();
    }

    /** `hasActiveFilters`: with none active, every project is shown. */
    function HasActiveFilters(): (active: bool)
      reads this
      ensures active <==> HasActive(searchTerm, statusFilter, selectedTags)
      ensures !active ==> forall projects :: FilterProjects(projects, searchTerm, statusFilter, selectedTags) == projects
    {
      if HasActive(searchTerm, statusFilter, selectedTags) then true
      else
        assert forall projects :: FilterProjects(projects, searchTerm, statusFilter, selectedTags) == projects by {
          forall projects ensures FilterProjects(projects, searchTerm, statusFilter, selectedTags) == projects {
            InactiveFiltersKeepAll(projects, searchTerm, statusFilter, selectedTags);
          }
        }
        false
    }

    /** `filteredProjects` for the current filters. */
    function FilteredProjects(projects: seq<ProjectCard>): (shown: seq<ProjectCard>)
      reads this
      ensures IsSubsequence(shown, projects)
      ensures forall p :: p in shown <==> p in projects && Keeps(p, searchTerm, statusFilter, selectedTags)
      ensures forall p :: Keeps(p, searchTerm, statusFilter, selectedTags) ==> multiset(shown)[p] == multiset(projects)[p]
    {
      FilterProjects(projects, searchTerm, statusFilter, selectedTags)
    }

    /** The search box's `onChange`. */
    method SetSearchTerm(term: string)
      requires Valid()
      modifies this
      ensures Valid()
      ensures searchTerm == term
      ensures statusFilter == old(statusFilter) && selectedTags == old(selectedTags)
    {
      searchTerm := term;
    }

    /** The status select's `onChange`. */
    method SetStatusFilter(status: string)
      requires Valid()
      modifies this
      ensures Valid()
      ensures statusFilter == status
      ensures searchTerm == old(searchTerm) && selectedTags == old(selectedTags)
    {
      statusFilter := status;
    }

    /** `toggleTag` */
    method ToggleTag(tagValue: string)
      requires Valid()
      modifies this
      ensures Valid()
      ensures selectedTags == Toggled(old(selectedTags), tagValue)
      ensures tagValue in selectedTags <==> tagValue !in old(selectedTags)
      ensures searchTerm == old(searchTerm) && statusFilter == old(statusFilter)
    {
      ToggleKeepsNoDuplicates(selectedTags, tagValue);
      ToggleFlipsMembership(selectedTags, tagValue, tagValue);
      if tagValue in selectedTags {
        selectedTags := RemoveAll(selectedTags, tagValue);
      } else {
        selectedTags := selectedTags + [tagValue];
      }
    }

    /** `resetFilters`: back to the initial state, where every project is shown. */
    method ResetFilters()
      modifies this
      ensures searchTerm == "" && statusFilter == "all" && selectedTags == []
      ensures Valid() && !HasActiveFilters()
    {
      searchTerm := "";
      statusFilter := "all";
      selectedTags := [];
      DefaultFiltersInactive();
    }
  }
}
