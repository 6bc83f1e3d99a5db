/** The order of texts and of paths by their text. */
module Order {

  /** Character by character, a text before its extensions. */
  predicate TextBefore(a: string, b: string) {
    if b == [] then false
    else if a == [] then true
    else if a[0] == b[0] then TextBefore(a[1..], b[1..])
    else a[0] < b[0]
  }

  /** Where two texts part, the one with the lower character, or with none, is before the other. */
  lemma {:induction false} BeforeMeans(common: string, a: string, b: string)
    requires a == [] || b == [] || a[0] != b[0]
    ensures TextBefore(common + a, common + b) <==> b != [] && (a == [] || a[0] as int < b[0] as int)
  {
    if common == [] {
      assert common + a == a && common + b == b;
    } else {
      assert (common + a)[1..] == common[1..] + a && (common + b)[1..] == common[1..] + b;
      BeforeMeans(common[1..], a, b);
    }
  }

  lemma {:induction false} BeforeTotal(a: string, b: string)
    ensures TextBefore(a, b) || TextBefore(b, a) || a == b
    ensures !(TextBefore(a, b) && TextBefore(b, a)) && !TextBefore(a, a)
  {
    if a != [] && b != [] && a[0] == b[0] {
      BeforeTotal(a[1..], b[1..]);
      assert a == [a[0]] + a[1..] && b == [b[0]] + b[1..];
    }
    if a != [] {
      BeforeTotal(a[1..], a[1..]);
    }
  }

  lemma {:induction false} BeforeTransitive(a: string, b: string, c: string)
    requires TextBefore(a, b) && TextBefore(b, c)
    ensures TextBefore(a, c)
  {
    if a != [] && b != [] && c != [] && a[0] == b[0] == c[0] {
      BeforeTransitive(a[1..], b[1..], c[1..]);
    }
  }

  /** Among some texts one is before all others. */
  lemma {:induction false} LeastText(texts: set<string>) returns (least: string)
    requires texts != {}
    ensures least in texts && forall t | t in texts :: t == least || TextBefore(least, t)
    decreases texts
  {
    var first :| first in texts;
    var rest := texts - {first};
    assert texts == rest + {first};
    if rest == {} {
      return first;
    }
    var other := LeastText(rest);
    BeforeTotal(first, other);
    least := if TextBefore(other, first) then other else first;
    forall t | t in texts && t != least ensures TextBefore(least, t) {
      if t != first && t != other && least == first {
        assert t in rest;
        BeforeTransitive(first, other, t);
      }
    }
  }

  /** A path's text: a slash before each component. */
  function PathText(path: seq<string>): string {
    if path == [] then "" else "/" + path[0] + PathText(path[1..])
  }

  // ---- Sorting paths -----------------------------------------------------------------------

  function InsertPath(path: seq<string>, sorted: seq<seq<string>>): seq<seq<string>> {
    if sorted == [] || !TextBefore(PathText(sorted[0]), PathText(path)) then [path] + sorted
    else [sorted[0]] + InsertPath(path, sorted[1..])
  }

  function SortPaths(paths: seq<seq<string>>): seq<seq<string>> {
    if paths == [] then [] else InsertPath(paths[0], SortPaths(paths[1..]))
  }

  predicate PathsSorted(paths: seq<seq<string>>) {
    forall i, j | 0 <= i < j < |paths| :: !TextBefore(PathText(paths[j]), PathText(paths[i]))
  }

  /** No path of `rest` is before `first`. */
  predicate Leads(first: seq<string>, rest: seq<seq<string>>) {
    forall p | p in rest :: !TextBefore(PathText(p), PathText(first))
  }

  lemma LeadsSorted(first: seq<string>, rest: seq<seq<string>>)
    requires PathsSorted(rest) && Leads(first, rest)
    ensures PathsSorted([first] + rest)
  {
  }

  lemma LeadsOn(path: seq<string>, first: seq<string>, rest: seq<seq<string>>)
    requires Leads(first, rest) && !TextBefore(PathText(first), PathText(path))
    ensures Leads(path, [first] + rest)
  {
    forall p | p in rest ensures !TextBefore(PathText(p), PathText(path)) {
      BeforeTotal(PathText(p), PathText(first));
      if TextBefore(PathText(p), PathText(path)) {
        BeforeTotal(PathText(first), PathText(path));
        if PathText(first) != PathText(path) {
          BeforeTransitive(PathText(p), PathText(path), PathText(first));
        }
      }
    }
  }

  lemma {:induction false} InsertPathSorts(path: seq<string>, sorted: seq<seq<string>>)
    requires PathsSorted(sorted)
    ensures PathsSorted(InsertPath(path, sorted)) && multiset(InsertPath(path, sorted)) == multiset{path} + multiset(sorted)
  {
    if sorted == [] {
    } else {
      var first, rest := sorted[0], sorted[1..];
      assert sorted == [first] + rest;
      assert Leads(first, rest);
      if !TextBefore(PathText(first), PathText(path)) {
        LeadsOn(path, first, rest);
        LeadsSorted(path, sorted);
      } else {
        InsertPathSorts(path, rest);
        var more := InsertPath(path, rest);
        BeforeTotal(PathText(first), PathText(path));
        forall p | p in more ensures !TextBefore(PathText(p), PathText(first)) {
          assert p in multiset(more);
        }
        LeadsSorted(first, more);
      }
    }
  }

  /** Sorting keeps every path and orders them by text. */
  lemma {:induction false} SortPathsSorts(paths: seq<seq<string>>)
    ensures PathsSorted(SortPaths(paths)) && multiset(SortPaths(paths)) == multiset(paths)
  {
    if paths != [] {
      SortPathsSorts(paths[1..]);
      InsertPathSorts(paths[0], SortPaths(paths[1..]));
      assert paths == [paths[0]] + paths[1..];
    }
  }

  /** So it keeps what is among them, and that each is there once. */
  lemma SortPathsKeeps(paths: seq<seq<string>>)
    ensures var sorted := SortPaths(paths);
            (forall p :: p in sorted <==> p in paths) && |sorted| == |paths| &&
            ((forall i, j | 0 <= i < j < |paths| :: paths[i] != paths[j]) ==>
               forall i, j | 0 <= i < j < |sorted| :: sorted[i] != sorted[j])
  {
    SortPathsSorts(paths);
    var sorted := SortPaths(paths);
    assert |sorted| == |multiset(sorted)| == |multiset(paths)| == |paths|;
    forall p ensures p in sorted <==> p in paths {
      assert p in sorted <==> p in multiset(sorted);
      assert p in paths <==> p in multiset(paths);
    }
    if forall i, j | 0 <= i < j < |paths| :: paths[i] != paths[j] {
      OnceCounted(paths);
      CountedOnce(sorted);
    }
  }

  lemma {:induction false} OnceCounted(paths: seq<seq<string>>)
    requires forall i, j | 0 <= i < j < |paths| :: paths[i] != paths[j]
    ensures forall p :: multiset(paths)[p] <= 1
  {
    if paths != [] {
      OnceCounted(paths[1..]);
      assert paths == [paths[0]] + paths[1..];
      assert paths[0] !in paths[1..];
    }
  }

  lemma {:induction false} CountedOnce(paths: seq<seq<string>>)
    requires forall p :: multiset(paths)[p] <= 1
    ensures forall i, j | 0 <= i < j < |paths| :: paths[i] != paths[j]
  {
    if paths != [] {
      assert paths == [paths[0]] + paths[1..];
      forall p ensures multiset(paths[1..])[p] <= 1 {
        assert multiset(paths)[p] <= 1;
      }
      CountedOnce(paths[1..]);
      assert paths[0] !in paths[1..] by {
        assert multiset(paths)[paths[0]] <= 1;
        assert multiset(paths) == multiset{paths[0]} + multiset(paths[1..]);
      }
    }
  }
}
