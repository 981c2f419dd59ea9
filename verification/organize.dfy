/** The prefix organizer, `organize_files` in main.py: it groups the visible
    regular files of the output folder by the text before their first `-`
    and moves every group of two or more files into a subfolder named after
    that prefix. The folder's listing is an input; the moves are returned as
    a plan instead of being carried out. */
module Organize {
  import opened Seqs
  import opened Text

  /** One entry of `os.listdir(output_folder)`, with `os.path.isfile` of it. */
  datatype Entry = Entry(name: string, isFile: bool)

  /** `shutil.move(join(output_folder, name), join(folder, name))`. */
  datatype Move = Move(name: string, folder: string)

  /** The entries the organizer looks at: regular files whose name does not
      start with `.`. */
  predicate IsCandidate(e: Entry) {
    e.isFile && !StartsWith(e.name, ".")
  }

  /** The names of the candidate entries, in listing order (`files`). */
  function Candidates(listing: seq<Entry>): (files: seq<string>)
    ensures |files| <= |listing|
  {
    if listing == [] then []
    else
      var init, last := listing[..|listing| - 1], listing[|listing| - 1];
      Candidates(init) + if IsCandidate(last) then [last.name] else []
  }

  /** A name is a candidate exactly when some candidate entry carries it. */
  lemma {:induction false} CandidatesMembership(listing: seq<Entry>)
    ensures forall x :: x in Candidates(listing) <==> exists e :: e in listing && IsCandidate(e) && e.name == x
  {
    if listing != [] {
      var init, last := listing[..|listing| - 1], listing[|listing| - 1];
      assert listing == init + [last];
      CandidatesMembership(init);
    }
  }

  lemma {:induction false} CandidatesAppend(a: seq<Entry>, b: seq<Entry>)
    ensures Candidates(a + b) == Candidates(a) + Candidates(b)
  {
    if b != [] {
      var init, last := b[..|b| - 1], b[|b| - 1];
      CandidatesAppend(a, init);
      assert (a + b)[..|a + b| - 1] == a + init;
    } else {
      assert a + b == a;
    }
  }

  /** `filename.split('-')[0].strip()`: the text before the first `-`, without
      surrounding whitespace. */
  function Prefix(name: string): string {
    Strip(BeforeFirst(name, '-'))
  }

  /** The characters of a prefix are characters of the name before its
      first `-`. */
  lemma PrefixChars(name: string)
    ensures forall c :: c in Prefix(name) ==> c in name && c != '-'
  {
    var head := BeforeFirst(name, '-');
    var p := Strip(head);
    BeforeFirstShape(name, '-');
    SliceChars(name, head, 0);
    StripShape(head);
    var i :| 0 <= i <= |head| - |p| && p == head[i..i + |p|] && AllSpace(head[..i]) && AllSpace(head[i + |p|..]);
    SliceChars(head, p, i);
  }

  /** A prefix never contains `-`, neither starts nor ends with whitespace,
      is the stripped name when there is no `-`, and is made of characters
      of the name. */
  lemma PrefixShape(name: string)
    ensures '-' !in Prefix(name)
    ensures var p := Prefix(name); p == [] || (!IsSpace(p[0]) && !IsSpace(p[|p| - 1]))
    ensures '-' !in name ==> Prefix(name) == Strip(name)
    ensures forall c :: c in Prefix(name) ==> c in name
  {
    PrefixChars(name);
    PrefixTrimmed(name);
    PlainNameIsStripped(name);
  }

  lemma PrefixTrimmed(name: string)
    ensures var p := Prefix(name); p == [] || (!IsSpace(p[0]) && !IsSpace(p[|p| - 1]))
  {
    StripShape(BeforeFirst(name, '-'));
  }

  lemma PlainNameIsStripped(name: string)
    ensures '-' !in name ==> Prefix(name) == Strip(name)
  {
    var head := BeforeFirst(name, '-');
    BeforeFirstShape(name, '-');
    if '-' !in name {
      assert forall k :: 0 <= k < |name| ==> name[k] in name;
      assert head == name[..|name|] == name;
    }
  }

  /** `BeforeFirst` stops at the first separator, found at `n`. */
  lemma BeforeFirstAt(s: string, sep: char, n: nat)
    requires n <= |s| && sep !in s[..n]
    requires n < |s| ==> s[n] == sep
    ensures BeforeFirst(s, sep) == s[..n]
  {
    var r := BeforeFirst(s, sep);
    BeforeFirstShape(s, sep);
    assert forall k :: 0 <= k < n ==> s[..n][k] == s[k] != sep;
    assert forall k :: 0 <= k < |r| ==> r[k] == s[k] != sep;
  }

  /** A name without `-` that neither starts nor ends with whitespace is
      its own prefix. */
  lemma PlainNamePrefix(name: string)
    requires name != [] && '-' !in name
    requires !IsSpace(name[0]) && !IsSpace(name[|name| - 1])
    ensures Prefix(name) == name
  {
    BeforeFirstShape(name, '-');
  }

  /** A name whose first `-` is at `n` has the stripped text before it as
      its prefix. */
  lemma DashNamePrefix(name: string, n: nat)
    requires n < |name| && name[n] == '-' && forall k :: 0 <= k < n ==> name[k] != '-'
    ensures Prefix(name) == Strip(name[..n])
  {
    BeforeFirstAt(name, '-', n);
  }

  lemma SpacedDashPrefix()
    ensures Prefix("A - one.mp4") == "A"
  {
    DashNamePrefix("A - one.mp4", 2);
    assert "A - one.mp4"[..2] == "A ";
    assert "A "[..1] == "A";
  }

  lemma TightDashPrefix()
    ensures Prefix("A-two.mp4") == "A"
  {
    DashNamePrefix("A-two.mp4", 1);
    assert "A-two.mp4"[..1] == "A";
  }

  lemma MoviePrefix()
    ensures Prefix("movie.mp4") == "movie.mp4"
  {
    PlainNamePrefix("movie.mp4");
  }

  /** Every name starting with `show-` has the prefix `show`. */
  lemma ShowPrefix(name: string)
    requires |name| >= 5 && name[..5] == "show-"
    ensures Prefix(name) == "show"
  {
    assert name[..4] == "show" && name[4] == '-';
    DashNamePrefix(name, 4);
    PlainNamePrefix("show");
  }

  /** The two spellings of a series name group together, and a name without
      `-` is its own prefix. */
  lemma PrefixExamples()
    ensures Prefix("A - one.mp4") == "A"
    ensures Prefix("A-two.mp4") == "A"
    ensures Prefix("movie.mp4") == "movie.mp4"
  {
    SpacedDashPrefix();
    TightDashPrefix();
    MoviePrefix();
  }

  function Prefixes(files: seq<string>): seq<string> {
    seq(|files|, k requires 0 <= k < |files| => Prefix(files[k]))
  }

  /** The distinct elements of `ps` in the order they are first seen: the
      keys of `prefix_dict` in insertion order. */
  function FirstSeen(ps: seq<string>): (keys: seq<string>)
    ensures |keys| <= |ps|
  {
    if ps == [] then []
    else
      var init, last := ps[..|ps| - 1], ps[|ps| - 1];
      var seen := FirstSeen(init);
      if last in init then seen else seen + [last]
  }

  /** Every element of `ps` is a key, exactly once. */
  lemma {:induction false} FirstSeenKeys(ps: seq<string>)
    ensures forall p :: p in FirstSeen(ps) <==> p in ps
    ensures forall i, j :: 0 <= i < j < |FirstSeen(ps)| ==> FirstSeen(ps)[i] != FirstSeen(ps)[j]
  {
    if ps != [] {
      var init, last := ps[..|ps| - 1], ps[|ps| - 1];
      FirstSeenKeys(init);
      assert ps == init + [last];
    }
  }

  lemma FirstSeenAppend(ps: seq<string>, y: string)
    ensures FirstSeen(ps + [y]) == if y in ps then FirstSeen(ps) else FirstSeen(ps) + [y]
  {
    assert (ps + [y])[..|ps|] == ps;
  }

  /** The position of the first occurrence of `x` in `ps`. */
  function IndexOf(ps: seq<string>, x: string): (i: nat)
    requires x in ps
    ensures i < |ps| && ps[i] == x && x !in ps[..i]
  {
    if ps[0] == x then 0
    else
      var i := 1 + IndexOf(ps[1..], x);
      assert ps[..i] == [ps[0]] + ps[1..][..i - 1];
      i
  }

  lemma IndexOfInit(ps: seq<string>, y: string, x: string)
    requires x in ps
    ensures IndexOf(ps + [y], x) == IndexOf(ps, x)
  {
    var i, j := IndexOf(ps, x), IndexOf(ps + [y], x);
    assert forall k :: 0 <= k < i ==> ps[..i][k] == ps[k] != x;
    assert forall k :: 0 <= k < j ==> (ps + [y])[..j][k] == (ps + [y])[k] != x;
    assert (ps + [y])[i] == x;
  }

  /** The keys come in the order of their first occurrence. */
  lemma {:induction false} FirstSeenOrder(ps: seq<string>)
    ensures forall i, j :: 0 <= i < j < |FirstSeen(ps)| ==>
      FirstSeen(ps)[i] in ps && FirstSeen(ps)[j] in ps
      && IndexOf(ps, FirstSeen(ps)[i]) < IndexOf(ps, FirstSeen(ps)[j])
  {
    if ps != [] {
      var init, last := ps[..|ps| - 1], ps[|ps| - 1];
      assert ps == init + [last];
      FirstSeenOrder(init);
      FirstSeenKeys(init);
      var keys, seen := FirstSeen(ps), FirstSeen(init);
      assert keys == if last in init then seen else seen + [last];
      forall i, j | 0 <= i < j < |keys|
        ensures keys[i] in ps && keys[j] in ps && IndexOf(ps, keys[i]) < IndexOf(ps, keys[j])
      {
        assert keys[i] == seen[i] && seen[i] in init;
        IndexOfInit(init, last, keys[i]);
        if j < |seen| {
          assert keys[j] == seen[j] && seen[j] in init;
          IndexOfInit(init, last, keys[j]);
        } else {
          assert keys[j] == last && last !in init;
          assert forall k :: 0 <= k < |init| ==> ps[k] == init[k] != last;
          assert IndexOf(ps, last) == |init|;
        }
      }
    } else {
      assert FirstSeen(ps) == [];
    }
  }

  /** The test that puts a file into the group of `p`. */
  function HasPrefix(p: string): string -> bool {
    x => Prefix(x) == p
  }

  /** The files whose prefix is `p`, in scan order: `prefix_dict[p]`. */
  function Members(files: seq<string>, p: string): (group: seq<string>)
    ensures |group| <= |files|
  {
    if files == [] then []
    else
      var init, last := files[..|files| - 1], files[|files| - 1];
      Members(init, p) + if Prefix(last) == p then [last] else []
  }

  /** A group is the selection of the scanned files by `HasPrefix`. */
  lemma {:induction false} MembersIsFilter(files: seq<string>, p: string)
    ensures Members(files, p) == Filter(files, HasPrefix(p))
  {
    if files != [] {
      MembersIsFilter(files[..|files| - 1], p);
    }
  }

  /** A group lists its files in scan order: the k-th file of the group is
      the file at the k-th of the increasing positions whose prefix is `p`. */
  lemma MembersInScanOrder(files: seq<string>, p: string)
    ensures var idx := KeptPositions(files, HasPrefix(p));
      && |idx| == |Members(files, p)|
      && (forall k :: 0 <= k < |idx| ==> idx[k] < |files| && files[idx[k]] == Members(files, p)[k])
      && (forall k, l :: 0 <= k < l < |idx| ==> idx[k] < idx[l])
      && (forall j :: 0 <= j < |files| ==> (Prefix(files[j]) == p <==> j in idx))
  {
    MembersIsFilter(files, p);
    FilterIsOrderedSubsequence(files, HasPrefix(p));
  }

  /** Each file belongs to the group of its own prefix and to no other. */
  lemma {:induction false} MembersMembership(files: seq<string>, p: string)
    ensures forall x :: x in Members(files, p) <==> x in files && Prefix(x) == p
  {
    if files != [] {
      var init, last := files[..|files| - 1], files[|files| - 1];
      assert files == init + [last];
      MembersMembership(init, p);
    }
  }

  lemma {:induction false} MembersOfOtherPrefix(files: seq<string>, p: string)
    requires p !in Prefixes(files)
    ensures Members(files, p) == []
  {
    if files != [] {
      var init := files[..|files| - 1];
      assert Prefixes(init) == Prefixes(files)[..|init|];
      MembersOfOtherPrefix(init, p);
      assert Prefix(files[|files| - 1]) == Prefixes(files)[|init|];
    }
  }

  lemma MembersAddFile(files: seq<string>, x: string, p: string)
    ensures Members(files + [x], p) == Members(files, p) + if Prefix(x) == p then [x] else []
  {
    assert (files + [x])[..|files|] == files;
  }

  /** A group holds each file of its prefix as often as it was scanned, and
      nothing else. */
  lemma {:induction false} MembersCount(files: seq<string>, p: string)
    ensures forall y :: multiset(Members(files, p))[y] == if Prefix(y) == p then multiset(files)[y] else 0
  {
    if files != [] {
      var init, last := files[..|files| - 1], files[|files| - 1];
      MembersCount(init, p);
      assert files == init + [last];
    }
  }

  /** `prefix_dict` once the scan is complete. */
  function GroupsOf(files: seq<string>): map<string, seq<string>> {
    map p | p in Prefixes(files) :: Members(files, p)
  }

  /** The groups listed key after key. */
  function Concat(files: seq<string>, keys: seq<string>): seq<string> {
    if keys == [] then []
    else Concat(files, keys[..|keys| - 1]) + Members(files, keys[|keys| - 1])
  }

  /** Listing the groups of distinct keys one after another gives each file
      whose prefix is a key as often as it was scanned, and nothing else. */
  lemma {:induction false} ConcatCount(files: seq<string>, keys: seq<string>)
    requires forall i, j :: 0 <= i < j < |keys| ==> keys[i] != keys[j]
    ensures forall y :: multiset(Concat(files, keys))[y] == if Prefix(y) in keys then multiset(files)[y] else 0
  {
    if keys != [] {
      var init, last := keys[..|keys| - 1], keys[|keys| - 1];
      ConcatCount(files, init);
      MembersCount(files, last);
      assert forall k :: 0 <= k < |init| ==> init[k] == keys[k] != last;
      forall y ensures multiset(Concat(files, keys))[y] == if Prefix(y) in keys then multiset(files)[y] else 0 {
        assert Prefix(y) in keys <==> Prefix(y) in init || Prefix(y) == last;
      }
    }
  }

  /** Grouping partitions the files: listed group after group, in key order,
      they are the files themselves, each as often as it was scanned. */
  lemma GroupsPartitionFiles(files: seq<string>)
    ensures multiset(Concat(files, FirstSeen(Prefixes(files)))) == multiset(files)
  {
    var keys := FirstSeen(Prefixes(files));
    FirstSeenKeys(Prefixes(files));
    ConcatCount(files, keys);
    forall y ensures multiset(Concat(files, keys))[y] == multiset(files)[y] {
      if y in files {
        var k :| 0 <= k < |files| && files[k] == y;
        assert Prefixes(files)[k] == Prefix(y);
      }
    }
  }

  /** Scanning one more file appends it to the list of its prefix, which is
      created empty when the prefix is new; the other lists are unchanged. */
  lemma GroupsOfAppend(files: seq<string>, x: string)
    ensures var p := Prefix(x);
      GroupsOf(files + [x]) == GroupsOf(files)[p := (if p in GroupsOf(files) then GroupsOf(files)[p] else []) + [x]]
  {
    var p := Prefix(x);
    var before, after := GroupsOf(files), GroupsOf(files + [x]);
    var updated := before[p := (if p in before then before[p] else []) + [x]];
    assert after.Keys == updated.Keys by {
      assert Prefixes(files + [x]) == Prefixes(files) + [p];
    }
    forall q | q in after
      ensures after[q] == updated[q]
    {
      MembersAddFile(files, x, q);
      if q == p && p !in before {
        MembersOfOtherPrefix(files, p);
      }
    }
  }

  /** What scanning the file at position `i` does to the keys and lists. */
  lemma ScanStep(files: seq<string>, i: nat)
    requires i < |files|
    ensures var p, order, groups := Prefix(files[i]), FirstSeen(Prefixes(files[..i])), GroupsOf(files[..i]);
      && (p in groups <==> p in order)
      && FirstSeen(Prefixes(files[..i + 1])) == (if p in groups then order else order + [p])
      && GroupsOf(files[..i + 1]) == groups[p := (if p in groups then groups[p] else []) + [files[i]]]
  {
    var x, scanned := files[i], files[..i];
    assert files[..i + 1] == scanned + [x];
    assert Prefixes(scanned + [x]) == Prefixes(scanned) + [Prefix(x)];
    FirstSeenKeys(Prefixes(scanned));
    FirstSeenAppend(Prefixes(scanned), Prefix(x));
    GroupsOfAppend(scanned, x);
  }

  /** The body of that loop: a new prefix gets an empty list and a place
      at the end of the keys; then the file is appended to its prefix's
      list. */
  method AddToGroup(order: seq<string>, groups: map<string, seq<string>>, prefix: string, filename: string)
    returns (order': seq<string>, groups': map<string, seq<string>>)
    ensures order' == if prefix in groups then order else order + [prefix]
    ensures groups' == groups[prefix := (if prefix in groups then groups[prefix] else []) + [filename]]
  {
    order', groups' := order, groups;
    if prefix !in groups' {
      order' := order' + [prefix];
      groups' := groups'[prefix := []];
    }
    groups' := groups'[prefix := groups'[prefix] + [filename]];
  }

  /** The loop that builds `prefix_dict`: `order` holds its keys in insertion
      order and `groups` its lists. Every prefix of a file becomes a key, once,
      in order of first occurrence, and its list holds exactly the files with
      that prefix, in scan order. */
  method GroupByPrefix(files: seq<string>) returns (order: seq<string>, groups: map<string, seq<string>>)
    ensures order == FirstSeen(Prefixes(files))
    ensures groups == GroupsOf(files)
    ensures forall p :: p in groups <==> p in order
  {
    order, groups := [], map[];
    for i := 0 to |files|
      invariant order == FirstSeen(Prefixes(files[..i]))
      invariant groups == GroupsOf(files[..i])
    {
      var filename := files[i];
      var prefix := Prefix(filename);
      ScanStep(files, i);
      order, groups := AddToGroup(order, groups, prefix, filename);
    }
    assert files[..|files|] == files;
    FirstSeenKeys(Prefixes(files));
  }

  /** One move per file of `names`, all into `folder`. */
  function MovesInto(folder: string, names: seq<string>): seq<Move> {
    seq(|names|, k requires 0 <= k < |names| => Move(names[k], folder))
  }

  /** The moves for one group: into `output_folder/p`, only when the group has
      more than one file. */
  function GroupMoves(out: string, p: string, group: seq<string>): seq<Move> {
    if |group| > 1 then MovesInto(Join(out, p), group) else []
  }

  /** The moves for the groups of `keys`, key after key. */
  function PlanOver(out: string, keys: seq<string>, groups: map<string, seq<string>>): seq<Move>
    requires forall p :: p in keys ==> p in groups
  {
    if keys == [] then []
    else
      var init, last := keys[..|keys| - 1], keys[|keys| - 1];
      assert forall p :: p in init ==> p in keys;
      PlanOver(out, init, groups) + GroupMoves(out, last, groups[last])
  }

  /** The folders created for the groups of `keys`, key after key: the folder
      of a group with more than one file, unless the path already exists. */
  function FoldersOver(out: string, keys: seq<string>, groups: map<string, seq<string>>, present: set<string>): seq<string>
    requires forall p :: p in keys ==> p in groups
  {
    if keys == [] then []
    else
      var init, last := keys[..|keys| - 1], keys[|keys| - 1];
      assert forall p :: p in init ==> p in keys;
      FoldersOver(out, init, groups, present)
        + if |groups[last]| > 1 && Join(out, last) !in present then [Join(out, last)] else []
  }

  /** The moves `organize_files` makes for a list of candidate files. */
  function MovePlan(out: string, files: seq<string>): seq<Move> {
    FirstSeenKeys(Prefixes(files));
    PlanOver(out, FirstSeen(Prefixes(files)), GroupsOf(files))
  }

  /** The folders `organize_files` creates for a list of candidate files,
      given the paths that exist before it runs. */
  function NewFolderPaths(out: string, files: seq<string>, present: set<string>): seq<string> {
    FirstSeenKeys(Prefixes(files));
    FoldersOver(out, FirstSeen(Prefixes(files)), GroupsOf(files), present)
  }

  /** The destination folders of a plan. */
  function Destinations(plan: seq<Move>): set<string> {
    set m | m in plan :: m.folder
  }

  /** The loop over `prefix_dict.items()`: for each key in insertion order
      whose list has more than one file, create the folder named after the
      key if it does not exist, then move each file of the list, in list
      order, into it. */
  method PlanMoves(out: string, order: seq<string>, groups: map<string, seq<string>>, present: set<string>)
    returns (created: seq<string>, plan: seq<Move>)
    requires forall p :: p in order ==> p in groups
    ensures created == FoldersOver(out, order, groups, present)
    ensures plan == PlanOver(out, order, groups)
  {
    created, plan := [], [];
    for i := 0 to |order|
      invariant created == FoldersOver(out, order[..i], groups, present)
      invariant plan == PlanOver(out, order[..i], groups)
    {
      var prefix := order[i];
      var files := groups[prefix];
      assert order[..i + 1][..i] == order[..i];
      if |files| > 1 {
        var folder := Join(out, prefix);
        if folder !in present {
          created := created + [folder];
        }
        ghost var done := plan;
        for j := 0 to |files|
          invariant plan == done + MovesInto(folder, files)[..j]
        {
          plan := plan + [Move(files[j], folder)];
          assert MovesInto(folder, files)[..j + 1] == MovesInto(folder, files)[..j] + [Move(files[j], folder)];
        }
        assert MovesInto(folder, files)[..|files|] == MovesInto(folder, files);
      }
    }
    assert order[..|order|] == order;
  }

  /** Every file of a multi-file group is moved into the group's folder. */
  lemma {:induction false} PlanOverHas(out: string, keys: seq<string>, groups: map<string, seq<string>>, p: string, x: string)
    requires forall q :: q in keys ==> q in groups
    requires p in keys && |groups[p]| > 1 && x in groups[p]
    ensures Move(x, Join(out, p)) in PlanOver(out, keys, groups)
  {
    var init, last := keys[..|keys| - 1], keys[|keys| - 1];
    assert keys == init + [last];
    if p == last {
      var k :| 0 <= k < |groups[p]| && groups[p][k] == x;
      assert GroupMoves(out, last, groups[last])[k] == Move(x, Join(out, p));
    } else {
      PlanOverHas(out, init, groups, p, x);
    }
  }

  /** Every planned move comes from a multi-file group and goes to its
      folder; `p` is that group's key. */
  lemma {:induction false} PlanOverSource(out: string, keys: seq<string>, groups: map<string, seq<string>>, m: Move)
    returns (p: string)
    requires forall q :: q in keys ==> q in groups
    requires m in PlanOver(out, keys, groups)
    ensures p in keys && |groups[p]| > 1 && m.name in groups[p] && m.folder == Join(out, p)
  {
    var init, last := keys[..|keys| - 1], keys[|keys| - 1];
    assert keys == init + [last];
    if m in PlanOver(out, init, groups) {
      p := PlanOverSource(out, init, groups, m);
    } else {
      p := last;
      var moves := GroupMoves(out, last, groups[last]);
      var k :| 0 <= k < |moves| && moves[k] == m;
    }
  }

  /** A group with at most one file plans nothing, so keys whose groups are
      all that small plan no move at all. */
  lemma {:induction false} PlanOverEmpty(out: string, keys: seq<string>, groups: map<string, seq<string>>)
    requires forall q :: q in keys ==> q in groups && |groups[q]| <= 1
    ensures PlanOver(out, keys, groups) == []
  {
    if keys != [] {
      var init := keys[..|keys| - 1];
      assert forall q :: q in init ==> q in keys;
      PlanOverEmpty(out, init, groups);
    }
  }

  /** A folder is created exactly when some move goes into it and it did not
      exist before. */
  lemma {:induction false} FoldersOverSpec(out: string, keys: seq<string>, groups: map<string, seq<string>>, present: set<string>)
    requires forall q :: q in keys ==> q in groups
    ensures forall f :: f in FoldersOver(out, keys, groups, present) <==>
      f in Destinations(PlanOver(out, keys, groups)) && f !in present
  {
    if keys != [] {
      var init, last := keys[..|keys| - 1], keys[|keys| - 1];
      assert forall q :: q in init ==> q in keys;
      FoldersOverSpec(out, init, groups, present);
      var before, moves := PlanOver(out, init, groups), GroupMoves(out, last, groups[last]);
      assert Destinations(before + moves) == Destinations(before) + Destinations(moves) by {
        assert forall m :: m in before + moves <==> m in before || m in moves;
      }
      if |groups[last]| > 1 {
        assert moves[0] in moves;
        assert Destinations(moves) == {Join(out, last)};
      } else {
        assert Destinations(moves) == {};
      }
    }
  }

  /** A file of the candidates whose group has more than one file is moved
      into `output_folder/prefix`. */
  lemma MoveInPlan(out: string, files: seq<string>, x: string)
    requires x in files && |Members(files, Prefix(x))| > 1
    ensures Move(x, Join(out, Prefix(x))) in MovePlan(out, files)
  {
    var p := Prefix(x);
    var k :| 0 <= k < |files| && files[k] == x;
    assert Prefixes(files)[k] == p;
    FirstSeenKeys(Prefixes(files));
    MembersMembership(files, p);
    PlanOverHas(out, FirstSeen(Prefixes(files)), GroupsOf(files), p, x);
  }

  /** What the plan moves: a file is moved exactly when it is a candidate
      whose prefix group has more than one file, and it goes to the folder
      `output_folder/prefix` under its own name. Single-member groups,
      hidden files and non-files are not moved. */
  lemma MovePlanSpec(out: string, files: seq<string>)
    ensures forall m :: m in MovePlan(out, files) <==>
      m.name in files && |Members(files, Prefix(m.name))| > 1 && m.folder == Join(out, Prefix(m.name))
  {
    var keys, groups := FirstSeen(Prefixes(files)), GroupsOf(files);
    FirstSeenKeys(Prefixes(files));
    forall m ensures m in MovePlan(out, files) <==>
      m.name in files && |Members(files, Prefix(m.name))| > 1 && m.folder == Join(out, Prefix(m.name))
    {
      if m in MovePlan(out, files) {
        var p := PlanOverSource(out, keys, groups, m);
        assert groups[p] == Members(files, p);
        MembersMembership(files, p);
      }
      if m.name in files && |Members(files, Prefix(m.name))| > 1 && m.folder == Join(out, Prefix(m.name)) {
        MoveInPlan(out, files, m.name);
      }
    }
  }

  /** `organize_files(output_folder)` on the folder's listing. `present`
      holds the paths that exist before it runs. Returns the folders it
      creates and the moves it makes, in order. */
  method OrganizeFiles(out: string, listing: seq<Entry>, present: set<string>)
    returns (created: seq<string>, plan: seq<Move>)
    ensures plan == MovePlan(out, Candidates(listing))
    ensures created == NewFolderPaths(out, Candidates(listing), present)
    ensures forall m :: m in plan <==>
      m.name in Candidates(listing) && |Members(Candidates(listing), Prefix(m.name))| > 1
      && m.folder == Join(out, Prefix(m.name))
    ensures forall f :: f in created <==> f in Destinations(plan) && f !in present
  {
    var files := Candidates(listing);
    var order, groups := GroupByPrefix(files);
    created, plan := PlanMoves(out, order, groups, present);
    MovePlanSpec(out, files);
    FoldersOverSpec(out, order, groups, present);
  }

  /** Two files sharing a prefix, then one with another prefix: the pair
      is moved, in scan order, into the folder of its prefix, and the third
      file stays. */
  lemma PairAndSingle(out: string, a: string, b: string, c: string)
    requires Prefix(a) == Prefix(b) != Prefix(c)
    ensures MovePlan(out, [a, b, c]) == [Move(a, Join(out, Prefix(a))), Move(b, Join(out, Prefix(a)))]
  {
    var p, q := Prefix(a), Prefix(c);
    var files := [a, b, c];
    assert Prefixes(files) == [p, p, q];
    PairKeys(p, q);
    PairGroups(a, b, c);
    TwoPrefixPlan(out, files, p, q);
    assert MovesInto(Join(out, p), [a, b]) == [Move(a, Join(out, p)), Move(b, Join(out, p))];
  }

  /** With two prefixes, of which only the first has several files, the
      plan moves that first group and nothing else. */
  lemma TwoPrefixPlan(out: string, files: seq<string>, p: string, q: string)
    requires FirstSeen(Prefixes(files)) == [p, q]
    requires |Members(files, p)| > 1 && |Members(files, q)| <= 1
    ensures MovePlan(out, files) == MovesInto(Join(out, p), Members(files, p))
  {
    var groups := GroupsOf(files);
    FirstSeenKeys(Prefixes(files));
    assert p in Prefixes(files) && q in Prefixes(files);
    PairPlan(out, p, q, groups);
  }

  lemma PairKeys(p: string, q: string)
    requires p != q
    ensures FirstSeen([p, p, q]) == [p, q]
  {
    FirstSeenAppend([], p);
    assert [] + [p] == [p] && [p] + [p] == [p, p] && [p, p] + [q] == [p, p, q];
    FirstSeenAppend([p], p);
    FirstSeenAppend([p, p], q);
  }

  lemma PairGroups(a: string, b: string, c: string)
    requires Prefix(a) == Prefix(b) != Prefix(c)
    ensures Members([a, b, c], Prefix(a)) == [a, b]
    ensures Members([a, b, c], Prefix(c)) == [c]
  {
    var p, q := Prefix(a), Prefix(c);
    assert [] + [a] == [a] && [a] + [b] == [a, b] && [a, b] + [c] == [a, b, c];
    MembersAddFile([], a, p);
    MembersAddFile([a], b, p);
    MembersAddFile([a, b], c, p);
    MembersAddFile([], a, q);
    MembersAddFile([a], b, q);
    MembersAddFile([a, b], c, q);
  }

  lemma PairPlan(out: string, p: string, q: string, groups: map<string, seq<string>>)
    requires p in groups && q in groups && |groups[p]| > 1 && |groups[q]| <= 1
    ensures PlanOver(out, [p, q], groups) == MovesInto(Join(out, p), groups[p])
  {
    assert [p, q][..1] == [p] && [p][..0] == [];
    assert PlanOver(out, [p], groups) == [] + GroupMoves(out, p, groups[p]);
  }

  /** The example of the three files: the two `show-` episodes go to
      `show/`, the lone movie stays. */
  lemma ShowExample()
    ensures MovePlan("/out", ["show-ep1.mp4", "show-ep2.mp4", "movie.mp4"])
         == [Move("show-ep1.mp4", "/out/show"), Move("show-ep2.mp4", "/out/show")]
  {
    assert "show-ep1.mp4"[..5] == "show-" && "show-ep2.mp4"[..5] == "show-";
    ShowPrefix("show-ep1.mp4");
    ShowPrefix("show-ep2.mp4");
    MoviePrefix();
    PairAndSingle("/out", "show-ep1.mp4", "show-ep2.mp4", "movie.mp4");
    ShowFolder();
  }

  lemma ShowFolder()
    ensures Join("/out", "show") == "/out/show"
  {
    assert "/out" + "/" + "show" == "/out/show";
  }

  /** An output folder that is a file-system root, such as `/` or the `//`
      that `os.path.abspath` keeps: its parent `..` is itself. */
  predicate IsRoot(out: string) {
    out != [] && forall k :: 0 <= k < |out| ==> out[k] == '/'
  }

  /** The prefixes whose folder `os.path.join(out, p)` is the output folder
      itself: the empty prefix gives `out/`, the prefix `.` gives `out/.`,
      and at a root the prefix `..` gives `out/..`. */
  predicate NamesOutputFolder(out: string, p: string) {
    p == "" || p == "." || (p == ".." && IsRoot(out))
  }

  /** The prefixes that give no new entry at the top level: `""` and `.`
      name the output folder itself, and `..` its parent. */
  predicate NamesNoSubfolder(p: string) {
    p == "" || p == "." || p == ".."
  }

  /** A planned move takes a file away from the top level of the output
      folder unless its destination folder is the output folder itself:
      `out/`, `out/.`, or `out/..` at a root. Elsewhere a move into
      `out/..` takes the file away too, into the parent folder. */
  predicate MovedAway(out: string, plan: seq<Move>, name: string) {
    exists m :: m in plan && m.name == name && m.folder != Join(out, "") && m.folder != Join(out, ".")
      && !(IsRoot(out) && m.folder == Join(out, ".."))
  }

  /** The listing without the candidate files the plan takes away. */
  function Remaining(out: string, plan: seq<Move>, listing: seq<Entry>): seq<Entry> {
    if listing == [] then []
    else
      var init, last := listing[..|listing| - 1], listing[|listing| - 1];
      Remaining(out, plan, init) + if IsCandidate(last) && MovedAway(out, plan, last.name) then [] else [last]
  }

  /** The subfolders that appear at the top level: one per key of a group
      with more than one file, unless an entry of that name already exists
      or the prefix names no subfolder (`""` and `.` name the output folder
      itself, `..` its parent). */
  function NewFolders(listing: seq<Entry>, files: seq<string>, keys: seq<string>): seq<Entry> {
    if keys == [] then []
    else
      var p := keys[|keys| - 1];
      NewFolders(listing, files, keys[..|keys| - 1])
        + if !NamesNoSubfolder(p) && |Members(files, p)| > 1 && !(exists e :: e in listing && e.name == p)
          then [Entry(p, false)] else []
  }

  /** The top level of the output folder after `organize_files` has run on
      `listing` and every planned move has succeeded. */
  function AfterOrganize(out: string, listing: seq<Entry>): seq<Entry> {
    var files := Candidates(listing);
    Remaining(out, MovePlan(out, files), listing) + NewFolders(listing, files, FirstSeen(Prefixes(files)))
  }

  /** The names of `files` the plan does not take away. */
  function Unmoved(out: string, plan: seq<Move>, files: seq<string>): seq<string> {
    if files == [] then []
    else
      var init, last := files[..|files| - 1], files[|files| - 1];
      Unmoved(out, plan, init) + if MovedAway(out, plan, last) then [] else [last]
  }

  lemma {:induction false} UnmovedMembership(out: string, plan: seq<Move>, files: seq<string>)
    ensures forall x :: x in Unmoved(out, plan, files) <==> x in files && !MovedAway(out, plan, x)
  {
    if files != [] {
      var init, last := files[..|files| - 1], files[|files| - 1];
      assert files == init + [last];
      UnmovedMembership(out, plan, init);
    }
  }

  lemma {:induction false} RemainingKeepsOthers(out: string, plan: seq<Move>, listing: seq<Entry>)
    ensures forall e :: e in listing && !IsCandidate(e) ==> e in Remaining(out, plan, listing)
  {
    if listing != [] {
      var init, last := listing[..|listing| - 1], listing[|listing| - 1];
      assert listing == init + [last];
      RemainingKeepsOthers(out, plan, init);
    }
  }

  lemma {:induction false} CandidatesOfRemaining(out: string, plan: seq<Move>, listing: seq<Entry>)
    ensures Candidates(Remaining(out, plan, listing)) == Unmoved(out, plan, Candidates(listing))
  {
    if listing != [] {
      var init, last := listing[..|listing| - 1], listing[|listing| - 1];
      CandidatesOfRemaining(out, plan, init);
      var rest := Remaining(out, plan, init);
      var names := Candidates(init);
      if IsCandidate(last) {
        assert Candidates(listing) == names + [last.name];
        assert (names + [last.name])[..|names|] == names;
        if MovedAway(out, plan, last.name) {
          assert Remaining(out, plan, listing) == rest + [];
          assert rest + [] == rest;
        } else {
          assert Remaining(out, plan, listing) == rest + [last];
          assert (rest + [last])[..|rest|] == rest;
        }
      } else {
        assert Candidates(listing) == names;
        assert Remaining(out, plan, listing) == rest + [last];
        assert (rest + [last])[..|rest|] == rest;
      }
    }
  }

  lemma {:induction false} CandidatesOfNewFolders(listing: seq<Entry>, files: seq<string>, keys: seq<string>)
    ensures Candidates(NewFolders(listing, files, keys)) == []
  {
    if keys != [] {
      var init := keys[..|keys| - 1];
      CandidatesOfNewFolders(listing, files, init);
      var before := NewFolders(listing, files, init);
      var p := keys[|keys| - 1];
      if !NamesNoSubfolder(p) && |Members(files, p)| > 1 && !(exists e :: e in listing && e.name == p) {
        assert (before + [Entry(p, false)])[..|before|] == before;
      } else {
        assert before + [] == before;
      }
    }
  }

  /** After the moves, the hidden files and everything that is not a regular
      file are still at the top level, and the visible regular files there
      are exactly the candidates the plan did not take away. */
  lemma AfterOrganizeContents(out: string, listing: seq<Entry>)
    ensures forall e :: e in listing && !IsCandidate(e) ==> e in AfterOrganize(out, listing)
    ensures var files := Candidates(listing);
      Candidates(AfterOrganize(out, listing)) == Unmoved(out, MovePlan(out, files), files)
  {
    var files := Candidates(listing);
    var plan := MovePlan(out, files);
    var rest := Remaining(out, plan, listing);
    var dirs := NewFolders(listing, files, FirstSeen(Prefixes(files)));
    RemainingKeepsOthers(out, plan, listing);
    CandidatesAppend(rest, dirs);
    CandidatesOfNewFolders(listing, files, FirstSeen(Prefixes(files)));
    CandidatesOfRemaining(out, plan, listing);
  }

  lemma {:induction false} MembersOfUnmoved(out: string, plan: seq<Move>, files: seq<string>, p: string)
    ensures |Members(Unmoved(out, plan, files), p)| <= |Members(files, p)|
  {
    if files != [] {
      var init, last := files[..|files| - 1], files[|files| - 1];
      MembersOfUnmoved(out, plan, init, p);
      var before := Unmoved(out, plan, init);
      MembersAddFile(init, last, p);
      assert files == init + [last];
      if MovedAway(out, plan, last) {
        assert Unmoved(out, plan, files) == before + [];
        assert before + [] == before;
      } else {
        assert Unmoved(out, plan, files) == before + [last];
        MembersAddFile(before, last, p);
      }
    }
  }

  /** A candidate in a multi-file group whose prefix does not name the
      output folder itself leaves the top level: its destination is another
      folder. */
  lemma GroupedFileMovesAway(out: string, files: seq<string>, x: string)
    requires x in files && '/' !in x
    requires |Members(files, Prefix(x))| > 1 ==> !NamesOutputFolder(out, Prefix(x))
    ensures |Members(files, Prefix(x))| > 1 ==> MovedAway(out, MovePlan(out, files), x)
  {
    if |Members(files, Prefix(x))| > 1 {
      MoveInPlan(out, files, x);
      PrefixShape(x);
      assert '/' !in Prefix(x);
      JoinSameComponent(out, Prefix(x), "");
      JoinSameComponent(out, Prefix(x), ".");
      JoinSameComponent(out, Prefix(x), "..");
    }
  }

  /** Organizing is idempotent: once the moves are made, the files left at the
      top level have pairwise distinct prefixes, so a second run plans no
      move. This needs every moved group to have a prefix whose folder is
      not the output folder itself (`""`, `.`, and `..` at a root); names
      are single path components, as `os.listdir` gives them. */
  lemma SecondRunPlansNothing(out: string, listing: seq<Entry>)
    requires forall e :: e in listing ==> '/' !in e.name
    requires forall x :: x in Candidates(listing) && |Members(Candidates(listing), Prefix(x))| > 1 ==> !NamesOutputFolder(out, Prefix(x))
    ensures MovePlan(out, Candidates(AfterOrganize(out, listing))) == []
  {
    var files := Candidates(listing);
    var plan := MovePlan(out, files);
    var left := Unmoved(out, plan, files);
    AfterOrganizeContents(out, listing);
    CandidatesMembership(listing);
    UnmovedMembership(out, plan, files);
    var keys := FirstSeen(Prefixes(left));
    FirstSeenKeys(Prefixes(left));
    forall p | p in keys
      ensures p in GroupsOf(left) && |GroupsOf(left)[p]| <= 1
    {
      var k :| 0 <= k < |left| && Prefixes(left)[k] == p;
      var x := left[k];
      assert x in left;
      GroupedFileMovesAway(out, files, x);
      MembersOfUnmoved(out, plan, files, p);
    }
    PlanOverEmpty(out, keys, GroupsOf(left));
  }

  lemma {:induction false} RemainingOfNoPlan(out: string, listing: seq<Entry>)
    ensures Remaining(out, [], listing) == listing
  {
    if listing != [] {
      var init, last := listing[..|listing| - 1], listing[|listing| - 1];
      RemainingOfNoPlan(out, init);
      assert !MovedAway(out, [], last.name);
      assert listing == init + [last];
    }
  }

  lemma {:induction false} NoNewFoldersForSmallGroups(listing: seq<Entry>, files: seq<string>, keys: seq<string>)
    requires forall p :: p in keys ==> |Members(files, p)| <= 1
    ensures NewFolders(listing, files, keys) == []
  {
    if keys != [] {
      var init := keys[..|keys| - 1];
      assert forall p :: p in init ==> p in keys;
      NoNewFoldersForSmallGroups(listing, files, init);
    }
  }

  /** When nothing is planned, every group has at most one file. */
  lemma NoPlanSmallGroups(out: string, files: seq<string>)
    requires MovePlan(out, files) == []
    ensures forall p :: p in FirstSeen(Prefixes(files)) ==> |Members(files, p)| <= 1
  {
    FirstSeenKeys(Prefixes(files));
    forall p | p in FirstSeen(Prefixes(files))
      ensures |Members(files, p)| <= 1
    {
      var k :| 0 <= k < |files| && Prefixes(files)[k] == p;
      var x := files[k];
      assert Prefix(x) == p;
      GroupedFileIsPlanned(out, files, x);
    }
  }

  lemma GroupedFileIsPlanned(out: string, files: seq<string>, x: string)
    requires x in files
    ensures |Members(files, Prefix(x))| > 1 ==> Move(x, Join(out, Prefix(x))) in MovePlan(out, files)
  {
    if |Members(files, Prefix(x))| > 1 {
      MoveInPlan(out, files, x);
    }
  }

  /** A run that plans no move leaves the top level as it was: it moves
      nothing and creates no folder. */
  lemma NothingPlannedKeepsLayout(out: string, listing: seq<Entry>)
    requires MovePlan(out, Candidates(listing)) == []
    ensures AfterOrganize(out, listing) == listing
  {
    var files := Candidates(listing);
    var keys := FirstSeen(Prefixes(files));
    NoPlanSmallGroups(out, files);
    NoNewFoldersForSmallGroups(listing, files, keys);
    RemainingOfNoPlan(out, listing);
    assert listing + [] == listing;
  }

  /** Running the organizer a second time leaves the top level of the output
      folder as the first run left it, under the same conditions as above. */
  lemma SecondRunKeepsLayout(out: string, listing: seq<Entry>)
    requires forall e :: e in listing ==> '/' !in e.name
    requires forall x :: x in Candidates(listing) && |Members(Candidates(listing), Prefix(x))| > 1 ==> !NamesOutputFolder(out, Prefix(x))
    ensures AfterOrganize(out, AfterOrganize(out, listing)) == AfterOrganize(out, listing)
  {
    SecondRunPlansNothing(out, listing);
    NothingPlannedKeepsLayout(out, AfterOrganize(out, listing));
  }

  /** A file whose name starts with `-` has the empty prefix; its planned
      move has the output folder itself as destination, so it stays where it
      is. */
  lemma EmptyPrefixMovesInPlace(out: string, files: seq<string>)
    requires forall x :: x in files ==> '/' !in x
    ensures forall m :: m in MovePlan(out, files) && Prefix(m.name) == [] ==>
      Join(m.folder, m.name) == Join(out, m.name)
  {
    MovePlanSpec(out, files);
    forall m | m in MovePlan(out, files) && Prefix(m.name) == []
      ensures Join(m.folder, m.name) == Join(out, m.name)
    {
      EmptyJoinStaysPut(out, m.name);
    }
  }

  /** A name starting with `-` has the empty prefix. */
  lemma DashFirstPrefix(name: string)
    requires name != [] && name[0] == '-'
    ensures Prefix(name) == []
  {
    DashNamePrefix(name, 0);
    assert name[..0] == [];
  }

  /** A name starting with ` .-` has the prefix `.`. */
  lemma SpaceDotPrefix(name: string)
    requires |name| >= 3 && name[..3] == " .-"
    ensures Prefix(name) == "."
  {
    assert name[2] == '-' && name[0] != '-' && name[1] != '-';
    DashNamePrefix(name, 2);
    assert name[..2] == " .";
    assert " ."[1..] == ".";
  }

  /** A name starting with ` ..-` has the prefix `..`. */
  lemma SpaceDotDotPrefix(name: string)
    requires |name| >= 4 && name[..4] == " ..-"
    ensures Prefix(name) == ".."
  {
    assert name[3] == '-' && name[0] != '-' && name[1] != '-' && name[2] != '-';
    DashNamePrefix(name, 3);
    assert name[..3] == " ..";
    assert " .."[1..] == "..";
  }

  lemma InPlacePairCandidates(a: string, b: string)
    requires !StartsWith(a, ".") && !StartsWith(b, ".")
    ensures Candidates([Entry(a, true), Entry(b, true)]) == [a, b]
  {
    var ea, eb := Entry(a, true), Entry(b, true);
    assert [ea, eb][..1] == [ea] && [ea][..0] == [];
  }

  /** Both files of a pair whose prefix names the output folder itself are
      planned, and neither leaves its place. */
  lemma InPlacePairPlan(out: string, a: string, b: string)
    requires Prefix(a) == Prefix(b) && NamesOutputFolder(out, Prefix(a))
    ensures MovePlan(out, [a, b]) != []
    ensures !MovedAway(out, MovePlan(out, [a, b]), a) && !MovedAway(out, MovePlan(out, [a, b]), b)
  {
    var files, p := [a, b], Prefix(a);
    assert Members(files, p) == files by {
      assert [] + [a] == [a] && [a] + [b] == files;
      MembersAddFile([], a, p);
      MembersAddFile([a], b, p);
    }
    MoveInPlan(out, files, a);
    MovePlanSpec(out, files);
  }

  lemma InPlacePairNoFolders(listing: seq<Entry>, a: string, b: string)
    requires Prefix(a) == Prefix(b) && NamesNoSubfolder(Prefix(a))
    ensures NewFolders(listing, [a, b], FirstSeen(Prefixes([a, b]))) == []
  {
    var p := Prefix(a);
    var nothing: seq<string> := [];
    assert Prefixes([a, b]) == [p] + [p];
    FirstSeenAppend(nothing, p);
    assert nothing + [p] == [p];
    FirstSeenAppend([p], p);
    assert FirstSeen(Prefixes([a, b])) == [p];
    assert [p][..0] == nothing;
  }

  /** Why idempotence needs prefixes whose folder is not the output folder
      itself: two visible files sharing such a prefix are planned to move
      "into" the output folder, so they stay at the top level and are
      planned again on the next run. */
  lemma InPlacePairIsPlannedAgain(out: string, a: string, b: string)
    requires !StartsWith(a, ".") && !StartsWith(b, ".")
    requires Prefix(a) == Prefix(b) && NamesOutputFolder(out, Prefix(a))
    ensures var listing := [Entry(a, true), Entry(b, true)];
      && AfterOrganize(out, listing) == listing
      && MovePlan(out, Candidates(listing)) != []
  {
    var ea, eb := Entry(a, true), Entry(b, true);
    var listing := [ea, eb];
    InPlacePairCandidates(a, b);
    InPlacePairPlan(out, a, b);
    InPlacePairNoFolders(listing, a, b);
    var plan := MovePlan(out, [a, b]);
    assert Remaining(out, plan, listing) == listing by {
      assert listing[..1] == [ea] && [ea][..0] == [];
      assert Remaining(out, plan, [ea]) == [ea];
    }
  }

  /** Two visible files whose names start with `-` have the empty prefix:
      organizing leaves them where they are and plans them again. */
  lemma EmptyPrefixIsPlannedAgain(out: string, a: string, b: string)
    requires a != [] && b != [] && a[0] == '-' && b[0] == '-'
    ensures var listing := [Entry(a, true), Entry(b, true)];
      && AfterOrganize(out, listing) == listing
      && MovePlan(out, Candidates(listing)) != []
  {
    DashFirstPrefix(a);
    DashFirstPrefix(b);
    assert a[..1][0] == '-' && b[..1][0] == '-';
    InPlacePairIsPlannedAgain(out, a, b);
  }

  /** Two visible files whose names start with ` .-` have the prefix `.`:
      their folder `out/.` is the output folder, so organizing leaves them
      where they are and plans them again. */
  lemma DotPrefixIsPlannedAgain(out: string, a: string, b: string)
    requires |a| >= 3 && a[..3] == " .-" && |b| >= 3 && b[..3] == " .-"
    ensures var listing := [Entry(a, true), Entry(b, true)];
      && AfterOrganize(out, listing) == listing
      && MovePlan(out, Candidates(listing)) != []
  {
    SpaceDotPrefix(a);
    SpaceDotPrefix(b);
    assert a[..1][0] == ' ' && b[..1][0] == ' ';
    InPlacePairIsPlannedAgain(out, a, b);
  }

  /** At a root output folder, two visible files whose names start with
      ` ..-` have the prefix `..`, whose folder `out/..` is the root itself:
      organizing leaves them where they are and plans them again. */
  lemma RootParentPrefixIsPlannedAgain(out: string, a: string, b: string)
    requires IsRoot(out)
    requires |a| >= 4 && a[..4] == " ..-" && |b| >= 4 && b[..4] == " ..-"
    ensures var listing := [Entry(a, true), Entry(b, true)];
      && AfterOrganize(out, listing) == listing
      && MovePlan(out, Candidates(listing)) != []
  {
    SpaceDotDotPrefix(a);
    SpaceDotDotPrefix(b);
    assert a[..1][0] == ' ' && b[..1][0] == ' ';
    InPlacePairIsPlannedAgain(out, a, b);
  }

  /** A file in a multi-file group with the prefix `..` is moved into
      `out/..`. It leaves the top level, into the parent folder, exactly
      when the output folder is not a root, and no folder appears at the
      top level for it. */
  lemma ParentPrefixLeavesFolder(out: string, listing: seq<Entry>, x: string)
    requires x in Candidates(listing) && Prefix(x) == ".."
    requires |Members(Candidates(listing), "..")| > 1
    ensures Move(x, Join(out, "..")) in MovePlan(out, Candidates(listing))
    ensures MovedAway(out, MovePlan(out, Candidates(listing)), x) <==> !IsRoot(out)
    ensures Entry("..", false) !in NewFolders(listing, Candidates(listing), FirstSeen(Prefixes(Candidates(listing))))
  {
    var files := Candidates(listing);
    MoveInPlan(out, files, x);
    MovePlanSpec(out, files);
    JoinSameComponent(out, "..", "");
    JoinSameComponent(out, "..", ".");
    NoParentFolder(listing, files, FirstSeen(Prefixes(files)));
  }

  lemma {:induction false} NoParentFolder(listing: seq<Entry>, files: seq<string>, keys: seq<string>)
    ensures Entry("..", false) !in NewFolders(listing, files, keys)
  {
    if keys != [] {
      NoParentFolder(listing, files, keys[..|keys| - 1]);
    }
  }

  /** The same on two concrete names of each kind, the last at the root. */
  lemma InPlaceNamesPlannedAgain()
    ensures var listing := [Entry("-a.mp4", true), Entry("-b.mp4", true)];
      && AfterOrganize("/out", listing) == listing
      && MovePlan("/out", Candidates(listing)) != []
    ensures var listing := [Entry(" .-a.mp4", true), Entry(" .-b.mp4", true)];
      && AfterOrganize("/out", listing) == listing
      && MovePlan("/out", Candidates(listing)) != []
    ensures var listing := [Entry(" ..-a.mp4", true), Entry(" ..-b.mp4", true)];
      && AfterOrganize("/", listing) == listing
      && MovePlan("/", Candidates(listing)) != []
  {
    EmptyPrefixIsPlannedAgain("/out", "-a.mp4", "-b.mp4");
    DotNamesPlannedAgain();
    RootNamesPlannedAgain();
  }

  lemma DotNamesPlannedAgain()
    ensures var listing := [Entry(" .-a.mp4", true), Entry(" .-b.mp4", true)];
      && AfterOrganize("/out", listing) == listing
      && MovePlan("/out", Candidates(listing)) != []
  {
    assert " .-a.mp4"[..3] == " .-" && " .-b.mp4"[..3] == " .-";
    DotPrefixIsPlannedAgain("/out", " .-a.mp4", " .-b.mp4");
  }

  lemma RootNamesPlannedAgain()
    ensures var listing := [Entry(" ..-a.mp4", true), Entry(" ..-b.mp4", true)];
      && AfterOrganize("/", listing) == listing
      && MovePlan("/", Candidates(listing)) != []
  {
    assert " ..-a.mp4"[..4] == " ..-" && " ..-b.mp4"[..4] == " ..-";
    assert IsRoot("/");
    RootParentPrefixIsPlannedAgain("/", " ..-a.mp4", " ..-b.mp4");
  }

}
