/**
 * The parallel declaration emit (`output.rs`): files grouped by checker, each group emitted in
 * program order while the groups run concurrently. Emitting a file changes its checker's state and
 * nothing else; both the text and the state left behind are functions of the state found.
 */
module GroupedEmit {

  import opened Common

  // ---- Program order -----------------------------------------------------------------------

  /** A file's place in the program, the last if it stands there more than once; 0 for one that is not in it. */
  function Position(program: seq<string>, file: string): (r: nat)
    ensures file in program ==> r < |program| && program[r] == file && file !in program[r + 1..]
    ensures file !in program ==> r == 0
  {
    if program == [] then 0
    else
      var last := |program| - 1;
      assert program == program[..last] + [program[last]];
      if program[last] == file then last
      else
        assert forall r | 0 <= r <= last :: program[r + 1..] == program[..last][r..][if r < last then 1 else 0..] + (if r < last then [program[last]] else []);
        Position(program[..last], file)
  }

  /** The files' places in the program. */
  function Positions(program: seq<string>, files: seq<string>): (r: seq<nat>)
    ensures |r| == |files| && forall i | 0 <= i < |files| :: r[i] == Position(program, files[i])
  {
    if files == [] then [] else [Position(program, files[0])] + Positions(program, files[1..])
  }

  function KeyAt(keys: seq<nat>, i: nat): nat {
    if i < |keys| then keys[i] else 0
  }

  /** Index `a` sorts before index `b`: by the key, then as given. */
  predicate Before(keys: seq<nat>, a: nat, b: nat) {
    KeyAt(keys, a) < KeyAt(keys, b) || (KeyAt(keys, a) == KeyAt(keys, b) && a < b)
  }

  ghost predicate Sorted(order: seq<nat>, keys: seq<nat>) {
    forall a, b | 0 <= a < b < |order| :: Before(keys, order[a], order[b])
  }

  /** `order` lists the first `n` indices, each once, sorted stably by their keys. */
  ghost predicate InOrder(order: seq<nat>, n: nat, keys: seq<nat>) {
    |order| == n && (forall k | 0 <= k < |order| :: order[k] < n) && (forall i: nat :: i < n ==> i in order) &&
    Sorted(order, keys)
  }

  /** `declaration_emit_order` */
  method DeclarationEmitOrder(program: seq<string>, files: seq<string>) returns (order: seq<nat>)
    ensures InOrder(order, |files|, Positions(program, files))
  {
    var keys := Positions(program, files);
    order := [];
    var index := 0;
    while index < |files|
      invariant 0 <= index <= |files| && InOrder(order, index, keys)
    {
      var place := |order|;
      while place > 0 && !Before(keys, order[place - 1], index)
        invariant 0 <= place <= |order|
        invariant forall k | place <= k < |order| :: Before(keys, index, order[k])
      {
        assert order[place - 1] in order;
        place := place - 1;
      }
      AllBefore(order, place, index, keys);
      InsertSorted(order, index, place, keys);
      InsertMembers(order, index, place);
      assert |order[..place] + [index] + order[place..]| == index + 1;
      order := order[..place] + [index] + order[place..];
      index := index + 1;
    }
  }

  lemma AllBefore(order: seq<nat>, place: nat, n: nat, keys: seq<nat>)
    requires Sorted(order, keys) && place <= |order| && (place > 0 ==> Before(keys, order[place - 1], n))
    ensures forall k | 0 <= k < place :: Before(keys, order[k], n)
  {
    forall k | 0 <= k < place ensures Before(keys, order[k], n) {
      if k < place - 1 {
        assert Before(keys, order[k], order[place - 1]);
      }
    }
  }

  lemma InsertSorted(order: seq<nat>, n: nat, place: nat, keys: seq<nat>)
    requires Sorted(order, keys) && place <= |order|
    requires forall k | 0 <= k < place :: Before(keys, order[k], n)
    requires forall k | place <= k < |order| :: Before(keys, n, order[k])
    ensures Sorted(order[..place] + [n] + order[place..], keys)
  {
    var more := order[..place] + [n] + order[place..];
    forall a, b | 0 <= a < b < |more| ensures Before(keys, more[a], more[b]) {
      if a > place {
        assert more[a] == order[a - 1] && more[b] == order[b - 1];
      } else if a == place {
        assert more[b] == order[b - 1];
      } else if b > place {
        assert more[a] == order[a] && more[b] == order[b - 1];
      }
    }
  }

  lemma InsertMembers(order: seq<nat>, n: nat, place: nat)
    requires place <= |order| && (forall k | 0 <= k < |order| :: order[k] < n) && forall i: nat :: i < n ==> i in order
    ensures var more := order[..place] + [n] + order[place..];
            (forall k | 0 <= k < |more| :: more[k] < n + 1) && forall i: nat :: i < n + 1 ==> i in more
  {
    var more := order[..place] + [n] + order[place..];
    assert order == order[..place] + order[place..];
    forall i: nat | i < n + 1 ensures i in more {
      assert i in order || i == n;
    }
  }

  // ---- Groups ------------------------------------------------------------------------------

  predicate Ascending(group: seq<nat>) {
    forall j, k | 0 <= j < k < |group| :: group[j] < group[k]
  }

  /** The group holds exactly the indices below `n` whose file the checker checks. */
  ghost predicate GroupOf(group: seq<nat>, checker: nat, checkers: seq<nat>, n: nat) {
    Ascending(group) && forall i: nat :: i in group <==> i < n && KeyAt(checkers, i) == checker
  }

  /**
   * The groups of the first `n` indices: each holds the indices of one checker, ascending; every
   * checker met has one; they stand in the order of their first index.
   */
  ghost predicate Grouped(groups: seq<seq<nat>>, ids: seq<nat>, checkers: seq<nat>, n: nat) {
    |groups| == |ids| &&
    (forall g | 0 <= g < |groups| :: groups[g] != [] && GroupOf(groups[g], ids[g], checkers, n)) &&
    (forall g, h | 0 <= g < h < |groups| :: ids[g] != ids[h] && groups[g][0] < groups[h][0]) &&
    (forall i | 0 <= i < n :: KeyAt(checkers, i) in ids)
  }

  /** The checker of each group. */
  function GroupIds(groups: seq<seq<nat>>, checkers: seq<nat>): seq<nat> {
    seq(|groups|, g requires 0 <= g < |groups| => if groups[g] == [] then 0 else KeyAt(checkers, groups[g][0]))
  }

  /** `group_by_checker` */
  method GroupByChecker(checkers: seq<nat>) returns (groups: seq<seq<nat>>)
    ensures Grouped(groups, GroupIds(groups, checkers), checkers, |checkers|)
  {
    groups := [];
    ghost var ids := [];
    var byChecker: map<nat, nat> := map[];
    var index := 0;
    while index < |checkers|
      invariant 0 <= index <= |checkers| && Grouped(groups, ids, checkers, index)
      invariant forall c :: c in byChecker <==> c in ids
      invariant forall c | c in byChecker :: byChecker[c] < |groups| && ids[byChecker[c]] == c
    {
      var key := checkers[index];
      if key in byChecker {
        var group := byChecker[key];
        GroupedLonger(groups, ids, checkers, index, group);
        groups := groups[group := groups[group] + [index]];
      } else {
        GroupedNew(groups, ids, checkers, index);
        byChecker := byChecker[key := |groups|];
        groups, ids := groups + [[index]], ids + [key];
      }
      index := index + 1;
    }
    GroupIdsAre(groups, ids, checkers);
  }

  lemma GroupIdsAre(groups: seq<seq<nat>>, ids: seq<nat>, checkers: seq<nat>)
    requires Grouped(groups, ids, checkers, |checkers|)
    ensures GroupIds(groups, checkers) == ids
  {
    forall g | 0 <= g < |groups| ensures GroupIds(groups, checkers)[g] == ids[g] {
      assert groups[g][0] in groups[g];
    }
  }

  lemma GroupStays(group: seq<nat>, checker: nat, checkers: seq<nat>, n: nat)
    requires GroupOf(group, checker, checkers, n) && KeyAt(checkers, n) != checker
    ensures GroupOf(group, checker, checkers, n + 1)
  {
  }

  lemma GroupGrows(group: seq<nat>, checker: nat, checkers: seq<nat>, n: nat)
    requires GroupOf(group, checker, checkers, n) && KeyAt(checkers, n) == checker
    ensures GroupOf(group + [n], checker, checkers, n + 1)
  {
    forall k | 0 <= k < |group| ensures group[k] < n {
      assert group[k] in group;
    }
  }

  lemma GroupedLonger(groups: seq<seq<nat>>, ids: seq<nat>, checkers: seq<nat>, n: nat, group: nat)
    requires Grouped(groups, ids, checkers, n) && n < |checkers| && group < |groups| && ids[group] == checkers[n]
    ensures Grouped(groups[group := groups[group] + [n]], ids, checkers, n + 1)
  {
    var after := groups[group := groups[group] + [n]];
    forall g | 0 <= g < |after| ensures after[g] != [] && GroupOf(after[g], ids[g], checkers, n + 1) && after[g][0] == groups[g][0] {
      if g == group {
        GroupGrows(groups[g], ids[g], checkers, n);
      } else {
        if g < group {
          assert ids[g] != ids[group];
        } else {
          assert ids[group] != ids[g];
        }
        GroupStays(groups[g], ids[g], checkers, n);
      }
    }
  }

  lemma GroupedNew(groups: seq<seq<nat>>, ids: seq<nat>, checkers: seq<nat>, n: nat)
    requires Grouped(groups, ids, checkers, n) && n < |checkers| && checkers[n] !in ids
    ensures Grouped(groups + [[n]], ids + [checkers[n]], checkers, n + 1)
  {
    forall i: nat | i < n ensures KeyAt(checkers, i) != checkers[n] {
    }
    forall g | 0 <= g < |groups| ensures GroupOf(groups[g], ids[g], checkers, n + 1) && groups[g][0] < n {
      assert ids[g] in ids && groups[g][0] in groups[g];
      GroupStays(groups[g], ids[g], checkers, n);
    }
    assert GroupOf([n], checkers[n], checkers, n + 1);
  }

  // ---- Emitting ----------------------------------------------------------------------------

  /** One checker: the state it starts from, and what emitting a file does to a state and yields. */
  datatype Emitter<!S, !T> = Emitter(start: nat -> S, next: (S, string) -> S, text: (S, string) -> T)

  /** The state of a checker once the first `n` files in program order are emitted one by one. */
  function StateAt<S, T>(emitter: Emitter<S, T>, checker: nat, checkers: seq<nat>, files: seq<string>, n: nat): S
    requires n <= |files| == |checkers|
  {
    if n == 0 then emitter.start(checker)
    else
      var before := StateAt(emitter, checker, checkers, files, n - 1);
      if checkers[n - 1] == checker then emitter.next(before, files[n - 1]) else before
  }

  /** What a serial run in program order yields for file `i`. */
  function SerialText<S, T>(emitter: Emitter<S, T>, checkers: seq<nat>, files: seq<string>, i: nat): T
    requires i < |files| == |checkers|
  {
    emitter.text(StateAt(emitter, checkers[i], checkers, files, i), files[i])
  }

  /** Files of other checkers leave a checker as it is. */
  lemma {:induction false} OthersLeave<S, T>(emitter: Emitter<S, T>, checker: nat, checkers: seq<nat>, files: seq<string>, i: nat, j: nat)
    requires i <= j <= |files| == |checkers| && forall m | i <= m < j :: checkers[m] != checker
    ensures StateAt(emitter, checker, checkers, files, j) == StateAt(emitter, checker, checkers, files, i)
  {
    if i < j {
      OthersLeave(emitter, checker, checkers, files, i, j - 1);
    }
  }

  /** The index a group stands at with `done` of its files emitted. */
  function Standing(group: seq<nat>, done: nat, n: nat): nat {
    if done < |group| then group[done] else n
  }

  lemma AscendingOrders(group: seq<nat>, j: nat, k: nat)
    requires Ascending(group) && j < |group| && k < |group|
    ensures group[j] < group[k] <==> j < k
  {
  }

  /** Between two files of a group no file of its checker comes. */
  lemma NoneBetween(group: seq<nat>, checker: nat, checkers: seq<nat>, k: nat, m: nat)
    requires GroupOf(group, checker, checkers, |checkers|) && k <= |group|
    requires (if k == 0 then 0 else group[k - 1] + 1) <= m < Standing(group, k, |checkers|) <= |checkers|
    ensures checkers[m] != checker
  {
    forall j | 0 <= j < |group| ensures group[j] != m {
      if k > 0 {
        AscendingOrders(group, j, k - 1);
      }
      if k < |group| {
        AscendingOrders(group, j, k);
      }
    }
    assert m !in group;
  }

  lemma GroupStarts<S, T>(emitter: Emitter<S, T>, group: seq<nat>, checker: nat, checkers: seq<nat>, files: seq<string>)
    requires |files| == |checkers| && GroupOf(group, checker, checkers, |checkers|)
    ensures Standing(group, 0, |checkers|) <= |checkers|
    ensures StateAt(emitter, checker, checkers, files, Standing(group, 0, |checkers|)) == emitter.start(checker)
  {
    if group != [] {
      assert group[0] in group;
    }
    forall m | 0 <= m < Standing(group, 0, |checkers|) ensures checkers[m] != checker {
      NoneBetween(group, checker, checkers, 0, m);
    }
    OthersLeave(emitter, checker, checkers, files, 0, Standing(group, 0, |checkers|));
  }

  lemma GroupSteps<S, T>(emitter: Emitter<S, T>, group: seq<nat>, checker: nat, checkers: seq<nat>, files: seq<string>, k: nat)
    requires |files| == |checkers| && GroupOf(group, checker, checkers, |checkers|) && k < |group|
    ensures group[k] < |checkers| && checkers[group[k]] == checker && Standing(group, k + 1, |checkers|) <= |checkers|
    ensures StateAt(emitter, checker, checkers, files, Standing(group, k + 1, |checkers|)) ==
            emitter.next(StateAt(emitter, checker, checkers, files, group[k]), files[group[k]])
  {
    assert group[k] in group;
    if k + 1 < |group| {
      assert group[k + 1] in group && group[k] < group[k + 1];
    }
    forall m | group[k] + 1 <= m < Standing(group, k + 1, |checkers|) ensures checkers[m] != checker {
      NoneBetween(group, checker, checkers, k + 1, m);
    }
    OthersLeave(emitter, checker, checkers, files, group[k] + 1, Standing(group, k + 1, |checkers|));
  }

  // ---- Any interleaving --------------------------------------------------------------------

  /** How many files each group emitted, the state of each group's checker, and the texts so far. */
  datatype Progress<S, T> = Progress(done: seq<nat>, states: seq<S>, texts: map<nat, T>)

  /** Each group is as far as a serial run would be at the file it stands at. */
  ghost predicate Serial<S, T>(p: Progress<S, T>, emitter: Emitter<S, T>, groups: seq<seq<nat>>, ids: seq<nat>,
                               checkers: seq<nat>, files: seq<string>)
  {
    |files| == |checkers| && Grouped(groups, ids, checkers, |checkers|) &&
    |p.done| == |p.states| == |groups| &&
    (forall g | 0 <= g < |groups| ::
       p.done[g] <= |groups[g]| && Standing(groups[g], p.done[g], |files|) <= |files| &&
       p.states[g] == StateAt(emitter, ids[g], checkers, files, Standing(groups[g], p.done[g], |files|))) &&
    (forall i | i in p.texts :: i < |files| && p.texts[i] == SerialText(emitter, checkers, files, i)) &&
    (forall g, k | 0 <= g < |groups| && 0 <= k < |groups[g]| :: groups[g][k] in p.texts <==> k < p.done[g])
  }

  /** The next file of group `g`. */
  function Advanced<S, T>(p: Progress<S, T>, emitter: Emitter<S, T>, groups: seq<seq<nat>>, files: seq<string>, g: nat): Progress<S, T>
    requires g < |groups| == |p.done| == |p.states| && p.done[g] < |groups[g]| && groups[g][p.done[g]] < |files|
  {
    var i := groups[g][p.done[g]];
    Progress(p.done[g := p.done[g] + 1], p.states[g := emitter.next(p.states[g], files[i])],
             p.texts[i := emitter.text(p.states[g], files[i])])
  }

  /** Groups share no file. */
  lemma GroupsDisjoint(groups: seq<seq<nat>>, ids: seq<nat>, checkers: seq<nat>, g: nat, h: nat, j: nat, k: nat)
    requires Grouped(groups, ids, checkers, |checkers|) && g < |groups| && h < |groups| && j < |groups[g]| && k < |groups[h]|
    requires groups[g][j] == groups[h][k]
    ensures g == h && j == k
  {
    assert groups[g][j] in groups[g] && groups[h][k] in groups[h];
    assert ids[g] == ids[h];
    assert g == h;
    AscendingOrders(groups[g], j, k);
    AscendingOrders(groups[g], k, j);
  }

  lemma AdvanceKeeps<S, T>(p: Progress<S, T>, emitter: Emitter<S, T>, groups: seq<seq<nat>>, ids: seq<nat>,
                           checkers: seq<nat>, files: seq<string>, g: nat)
    requires Serial(p, emitter, groups, ids, checkers, files) && g < |groups| && p.done[g] < |groups[g]|
    ensures groups[g][p.done[g]] < |files| && groups[g][p.done[g]] !in p.texts
    ensures Serial(Advanced(p, emitter, groups, files, g), emitter, groups, ids, checkers, files)
  {
    GroupSteps(emitter, groups[g], ids[g], checkers, files, p.done[g]);
    var q, i := Advanced(p, emitter, groups, files, g), groups[g][p.done[g]];
    forall h, k | 0 <= h < |groups| && 0 <= k < |groups[h]| ensures groups[h][k] in q.texts <==> k < q.done[h] {
      if groups[h][k] == i {
        GroupsDisjoint(groups, ids, checkers, h, g, k, p.done[g]);
      } else if h == g {
        assert k != p.done[g];
      }
    }
  }

  function Below(n: nat): (r: set<nat>)
    ensures forall i: nat :: i in r <==> i < n
  {
    if n == 0 then {} else Below(n - 1) + {n - 1}
  }

  /** The groups emit in any interleaving; every file gets the text of the serial run. */
  method EmitGroups<S, T>(emitter: Emitter<S, T>, groups: seq<seq<nat>>, ghost ids: seq<nat>, starts: seq<S>,
                          ghost checkers: seq<nat>, files: seq<string>)
    returns (texts: map<nat, T>)
    requires |files| == |checkers| && Grouped(groups, ids, checkers, |checkers|)
    requires |starts| == |groups| && forall g | 0 <= g < |groups| :: starts[g] == emitter.start(ids[g])
    ensures forall i: nat :: i in texts <==> i < |files|
    ensures forall i | i in texts :: texts[i] == SerialText(emitter, checkers, files, i)
  {
    var p := Progress(seq(|groups|, _ => 0), starts, map[]);
    forall g | 0 <= g < |groups| ensures Standing(groups[g], 0, |files|) <= |files| &&
      starts[g] == StateAt(emitter, ids[g], checkers, files, Standing(groups[g], 0, |files|))
    {
      GroupStarts(emitter, groups[g], ids[g], checkers, files);
    }
    ghost var left := Below(|files|);
    while exists g :: 0 <= g < |groups| && p.done[g] < |groups[g]|
      invariant Serial(p, emitter, groups, ids, checkers, files)
      invariant forall i: nat :: i in left <==> i < |files| && i !in p.texts
      decreases |left|
    {
      var g :| 0 <= g < |groups| && p.done[g] < |groups[g]|;
      AdvanceKeeps(p, emitter, groups, ids, checkers, files, g);
      left := left - {groups[g][p.done[g]]};
      p := Advanced(p, emitter, groups, files, g);
    }
    texts := p.texts;
    AllEmitted(p, emitter, groups, ids, checkers, files);
  }

  lemma AllEmitted<S, T>(p: Progress<S, T>, emitter: Emitter<S, T>, groups: seq<seq<nat>>, ids: seq<nat>,
                         checkers: seq<nat>, files: seq<string>)
    requires Serial(p, emitter, groups, ids, checkers, files)
    requires forall g | 0 <= g < |groups| :: p.done[g] >= |groups[g]|
    ensures forall i: nat :: i in p.texts <==> i < |files|
  {
    forall i: nat | i < |files| ensures i in p.texts {
      var g :| 0 <= g < |ids| && ids[g] == KeyAt(checkers, i);
      assert GroupOf(groups[g], ids[g], checkers, |checkers|) && i in groups[g];
      var k :| 0 <= k < |groups[g]| && groups[g][k] == i;
    }
  }

  // ---- The emit of the files a caller gives -------------------------------------------------

  /** One file's emit: its declaration texts, or its diagnostics. */
  datatype FileEmit = Emitted(texts: seq<string>) | Refused(diagnostics: seq<string>)

  function Diagnostics(emits: seq<FileEmit>): seq<string> {
    if emits == [] then []
    else (match emits[0] case Emitted(_) => [] case Refused(d) => d) + Diagnostics(emits[1..])
  }

  function Texts(emits: seq<FileEmit>): seq<string> {
    if emits == [] then []
    else (match emits[0] case Emitted(t) => t case Refused(_) => []) + Texts(emits[1..])
  }

  /** All texts in the order the files were given in, or all diagnostics. */
  function Collected(emits: seq<FileEmit>): FileEmit {
    if Diagnostics(emits) != [] then Refused(Diagnostics(emits)) else Emitted(Texts(emits))
  }

  lemma {:induction false} DiagnosticsSum(a: seq<FileEmit>, b: seq<FileEmit>)
    ensures Diagnostics(a + b) == Diagnostics(a) + Diagnostics(b) && Texts(a + b) == Texts(a) + Texts(b)
  {
    if a == [] {
      assert a + b == b;
    } else {
      assert (a + b)[1..] == a[1..] + b;
      DiagnosticsSum(a[1..], b);
    }
  }

  lemma {:induction false} DiagnosticsAny(emits: seq<FileEmit>)
    ensures Diagnostics(emits) == [] <==> forall e | e in emits :: e.Emitted? || e.diagnostics == []
  {
    if emits != [] {
      DiagnosticsAny(emits[1..]);
      assert emits == [emits[0]] + emits[1..];
    }
  }

  lemma OneCollected(emit: FileEmit)
    ensures Diagnostics([emit]) == (if emit.Refused? then emit.diagnostics else [])
    ensures Texts([emit]) == (if emit.Emitted? then emit.texts else [])
    ensures Texts([]) == [] && Diagnostics([]) == []
  {
    assert [emit][1..] == [];
  }

  /**
   * If no file has a diagnostic the result is the texts of the files, one file after the other; otherwise
   * it is the diagnostics, in the same order.
   */
  lemma CollectedMeans(before: seq<FileEmit>, emit: FileEmit, after: seq<FileEmit>)
    ensures var all := before + [emit] + after;
            if forall e | e in all :: e.Emitted? || e.diagnostics == [] then
              Collected(all) == Emitted(Texts(before) + (if emit.Emitted? then emit.texts else []) + Texts(after))
            else
              Collected(all) == Refused(Diagnostics(before) + (if emit.Refused? then emit.diagnostics else []) + Diagnostics(after))
    ensures Texts([]) == [] && Diagnostics([]) == []
  {
    hide Diagnostics, Texts;
    DiagnosticsSum(before + [emit], after);
    DiagnosticsSum(before, [emit]);
    DiagnosticsAny(before + [emit] + after);
    OneCollected(emit);
  }

  /** The files in the given order. */
  function Arranged(files: seq<string>, order: seq<nat>): (r: seq<string>)
    requires forall k | 0 <= k < |order| :: order[k] < |files|
    ensures |r| == |order| && forall k | 0 <= k < |order| :: r[k] == files[order[k]]
  {
    seq(|order|, k requires 0 <= k < |order| => files[order[k]])
  }

  function Checkers(files: seq<string>, checker: string -> nat): (r: seq<nat>)
    ensures |r| == |files| && forall i | 0 <= i < |files| :: r[i] == checker(files[i])
  {
    seq(|files|, i requires 0 <= i < |files| => checker(files[i]))
  }

  /** `emits` are, file by file as given, what a serial run in program order yields. */
  ghost predicate SerialEmits<S>(emits: seq<FileEmit>, files: seq<string>, order: seq<nat>, checker: string -> nat,
                                 emitter: Emitter<S, FileEmit>)
    requires forall k | 0 <= k < |order| :: order[k] < |files|
  {
    var ordered := Arranged(files, order);
    |emits| == |files| &&
    forall k | 0 <= k < |order| :: emits[order[k]] == SerialText(emitter, Checkers(ordered, checker), ordered, k)
  }

  /** The result of a serial run in program order over the files a caller gives. */
  ghost predicate SerialResult<S(!new)>(result: FileEmit, program: seq<string>, files: seq<string>, checker: string -> nat,
                                  emitter: Emitter<S, FileEmit>)
  {
    exists order, emits ::
      InOrder(order, |files|, Positions(program, files)) && SerialEmits(emits, files, order, checker, emitter) &&
      result == Collected(emits)
  }

  /** `emit_declaration_texts`: any interleaving gives the texts of the serial run. */
  method EmitDeclarationTexts<S(!new)>(program: seq<string>, files: seq<string>, checker: string -> nat, emitter: Emitter<S, FileEmit>)
    returns (result: FileEmit)
    ensures SerialResult(result, program, files, checker, emitter)
  {
    var sorted := DeclarationEmitOrder(program, files);
    var ordered := Arranged(files, sorted);
    var checkers := Checkers(ordered, checker);
    var groups := GroupByChecker(checkers);
    ghost var ids := GroupIds(groups, checkers);
    GroupsAreNonempty(groups, ids, checkers);
    var starts := seq(|groups|, g requires 0 <= g < |groups| => emitter.start(checkers[groups[g][0]]));
    var texts := EmitGroups(emitter, groups, ids, starts, checkers, ordered);
    var perFile := Placed(sorted, texts);
    result := Collected(perFile);
    assert InOrder(sorted, |files|, Positions(program, files)) && SerialEmits(perFile, files, sorted, checker, emitter);
  }

  lemma GroupsAreNonempty(groups: seq<seq<nat>>, ids: seq<nat>, checkers: seq<nat>)
    requires Grouped(groups, ids, checkers, |checkers|)
    ensures forall g | 0 <= g < |groups| :: groups[g] != [] && groups[g][0] < |checkers| && checkers[groups[g][0]] == ids[g]
  {
    forall g | 0 <= g < |groups| ensures groups[g][0] < |checkers| && checkers[groups[g][0]] == ids[g] {
      assert groups[g][0] in groups[g];
    }
  }

  /** The results back at the places the files were given in. */
  method Placed(order: seq<nat>, texts: map<nat, FileEmit>) returns (perFile: seq<FileEmit>)
    requires (forall k | 0 <= k < |order| :: order[k] < |order|) && (forall a, b | 0 <= a < b < |order| :: order[a] != order[b])
    requires forall i: nat :: i in texts <==> i < |order|
    ensures |perFile| == |order| && forall k | 0 <= k < |order| :: perFile[order[k]] == texts[k]
  {
    perFile := seq(|order|, _ => Emitted([]));
    var k := 0;
    while k < |order|
      invariant 0 <= k <= |order| == |perFile|
      invariant forall j | 0 <= j < k :: perFile[order[j]] == texts[j]
    {
      perFile := perFile[order[k] := texts[k]];
      k := k + 1;
    }
  }

  // ---- The order the files are given in does not matter ------------------------------------

  /** Ascending in program order. */
  ghost predicate ProgramOrder(files: seq<string>, program: seq<string>) {
    forall i, j | 0 <= i < j < |files| :: Position(program, files[i]) < Position(program, files[j])
  }

  /** Sorting distinct files of the program puts them in program order. */
  lemma ArrangedInOrder(program: seq<string>, files: seq<string>, order: seq<nat>)
    requires InOrder(order, |files|, Positions(program, files))
    requires (forall f | f in files :: f in program) && (forall i, j | 0 <= i < j < |files| :: files[i] != files[j])
    ensures ProgramOrder(Arranged(files, order), program)
    ensures forall f :: f in Arranged(files, order) <==> f in files
  {
    var ordered := Arranged(files, order);
    forall i, j | 0 <= i < j < |ordered| ensures Position(program, ordered[i]) < Position(program, ordered[j]) {
      assert Before(Positions(program, files), order[i], order[j]);
    }
    forall f | f in files ensures f in ordered {
      var i :| 0 <= i < |files| && files[i] == f;
      assert i in order;
      var k :| 0 <= k < |order| && order[k] == i;
      assert ordered[k] == f;
    }
  }

  lemma PlacedOnce(files: seq<string>, program: seq<string>, k: nat, m: nat)
    requires ProgramOrder(files, program) && k < |files| && m < |files| && files[k] == files[m]
    ensures k == m
  {
  }

  /** The last of two arrangements of the same files is the same. */
  lemma SameLast(a: seq<string>, b: seq<string>, program: seq<string>)
    requires ProgramOrder(a, program) && ProgramOrder(b, program) && (forall f :: f in a <==> f in b) && a != []
    ensures b != [] && a[|a| - 1] == b[|b| - 1]
  {
    assert a[0] in b;
    var x, y := a[|a| - 1], b[|b| - 1];
    assert x in b && y in a;
    var i :| 0 <= i < |b| && b[i] == x;
    var j :| 0 <= j < |a| && a[j] == y;
  }

  /** And leaves the same files before it. */
  lemma FrontPart(a: seq<string>, b: seq<string>, program: seq<string>, file: string)
    requires ProgramOrder(a, program) && (forall f | f in a :: f in b) && a != [] && b != []
    requires a[|a| - 1] == b[|b| - 1] && file in a[..|a| - 1]
    ensures file in b[..|b| - 1]
  {
    var front := a[..|a| - 1];
    var i :| 0 <= i < |front| && front[i] == file;
    assert Position(program, a[i]) < Position(program, a[|a| - 1]);
    assert a[i] in b;
    var k :| 0 <= k < |b| && b[k] == file;
    assert b[..|b| - 1][k] == file;
  }

  lemma SameFront(a: seq<string>, b: seq<string>, fa: seq<string>, fb: seq<string>, program: seq<string>)
    requires ProgramOrder(a, program) && ProgramOrder(b, program) && (forall f :: f in a <==> f in b) && a != [] && b != []
    requires a[|a| - 1] == b[|b| - 1] && fa == a[..|a| - 1] && fb == b[..|b| - 1]
    ensures ProgramOrder(fa, program) && ProgramOrder(fb, program) && forall f :: f in fa <==> f in fb
  {
    forall f ensures f in fa <==> f in fb {
      if f in fa {
        FrontPart(a, b, program, f);
      }
      if f in fb {
        FrontPart(b, a, program, f);
      }
    }
  }

  /** Only one arrangement is in program order. */
  lemma {:induction false} OneProgramOrder(a: seq<string>, b: seq<string>, program: seq<string>)
    requires ProgramOrder(a, program) && ProgramOrder(b, program) && |a| == |b| && forall f :: f in a <==> f in b
    ensures a == b
    decreases |a|
  {
    if a != [] {
      SameLast(a, b, program);
      var fa, fb := a[..|a| - 1], b[..|b| - 1];
      SameFront(a, b, fa, fb, program);
      OneProgramOrder(fa, fb, program);
      assert a == fa + [a[|a| - 1]] && b == fb + [b[|b| - 1]];
    }
  }

  /** Given the same files in another order, every file gets the same texts. */
  lemma GivenOrderIrrelevant<S>(program: seq<string>, a: seq<string>, b: seq<string>, checker: string -> nat, emitter: Emitter<S, FileEmit>,
                                orderA: seq<nat>, orderB: seq<nat>, emitsA: seq<FileEmit>, emitsB: seq<FileEmit>, i: nat, j: nat)
    requires (forall f | f in a :: f in program) && multiset(a) == multiset(b)
    requires (forall x, y | 0 <= x < y < |a| :: a[x] != a[y]) && (forall x, y | 0 <= x < y < |b| :: b[x] != b[y])
    requires InOrder(orderA, |a|, Positions(program, a)) && InOrder(orderB, |b|, Positions(program, b))
    requires SerialEmits(emitsA, a, orderA, checker, emitter)
    requires SerialEmits(emitsB, b, orderB, checker, emitter)
    requires i < |a| && j < |b| && a[i] == b[j]
    ensures emitsA[i] == emitsB[j]
  {
    forall f ensures f in a <==> f in b {
      assert f in a <==> f in multiset(a);
      assert f in b <==> f in multiset(b);
    }
    assert |a| == |multiset(a)| == |multiset(b)| == |b|;
    ArrangedInOrder(program, a, orderA);
    ArrangedInOrder(program, b, orderB);
    OneProgramOrder(Arranged(a, orderA), Arranged(b, orderB), program);
    assert i in orderA && j in orderB;
    var k :| 0 <= k < |orderA| && orderA[k] == i;
    var m :| 0 <= m < |orderB| && orderB[m] == j;
    PlacedOnce(Arranged(b, orderB), program, k, m);
  }
}
