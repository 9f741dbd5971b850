/** The registered helper programs and the documents' decisions about them (internal/config/helpers.go). */
module HelperConfig {
  import opened Orders
  import opened Sequences
  import opened TextOrder
  import opened Values

  const PROGRAM_CAP := 32
  const DECISION_CAP := 512

  datatype Program = Program(id: string, name: string, path: string, anyDocument: bool, addedAt: int)

  datatype Decision = Decision(document: string, name: string, program: string, allowed: bool, decidedAt: int)

  predicate ValidHelperName(s: string) {
    && 0 < |s| <= 32 && s[0] != '-' && s[|s| - 1] != '-'
    && forall i :: 0 <= i < |s| ==> 'a' <= s[i] <= 'z' || '0' <= s[i] <= '9' || s[i] == '-'
  }

  // ----- orders -----

  predicate ProgramLess(a: Program, b: Program) {
    if a.addedAt != b.addedAt then a.addedAt < b.addedAt else CodeLess(a.id, b.id)
  }

  predicate DecisionLess(a: Decision, b: Decision) {
    if a.decidedAt != b.decidedAt then a.decidedAt < b.decidedAt
    else if a.document != b.document then CodeLess(a.document, b.document)
    else CodeLess(a.name, b.name)
  }

  lemma {:induction false} DecisionOrder()
    ensures Strict(DecisionLess)
    ensures forall a: Decision, b: Decision :: a.document != b.document || a.name != b.name ==> DecisionLess(a, b) || DecisionLess(b, a)
  {
    CodeOrderIsTotal();
    forall a, b, c | DecisionLess(a, b) && DecisionLess(b, c) ensures DecisionLess(a, c) {
      assert CodeLess(a.document, b.document) && CodeLess(b.document, c.document) ==> CodeLess(a.document, c.document);
      assert CodeLess(a.name, b.name) && CodeLess(b.name, c.name) ==> CodeLess(a.name, c.name);
    }
    forall a: Decision, b: Decision | a.document != b.document || a.name != b.name ensures DecisionLess(a, b) || DecisionLess(b, a) {
      assert a.document != b.document ==> CodeLess(a.document, b.document) || CodeLess(b.document, a.document);
      assert a.name != b.name ==> CodeLess(a.name, b.name) || CodeLess(b.name, a.name);
    }
  }

  lemma {:induction false} ProgramOrder()
    ensures Strict(ProgramLess)
  {
    CodeOrderIsTotal();
    forall a, b, c | ProgramLess(a, b) && ProgramLess(b, c) ensures ProgramLess(a, c) {
      assert CodeLess(a.id, b.id) && CodeLess(b.id, c.id) ==> CodeLess(a.id, c.id);
    }
  }

  // ----- what every operation keeps -----

  predicate About(d: Decision, document: string, name: string) {
    d.document == document && d.name == name
  }

  predicate WellFormed(d: Decision) {
    ValidHelperName(d.name) && (d.allowed <==> d.program != "")
  }

  ghost predicate TidyDecisions(ds: seq<Decision>) {
    InOrder(ds, DecisionLess) && LooseDecisions(ds)
  }

  /** The same but for the order. */
  ghost predicate LooseDecisions(ds: seq<Decision>) {
    && |ds| <= DECISION_CAP && (forall d :: d in ds ==> WellFormed(d))
    && forall i, j :: 0 <= i < j < |ds| ==> !About(ds[j], ds[i].document, ds[i].name)
  }

  ghost predicate TidyPrograms(ps: seq<Program>) {
    && InOrder(ps, ProgramLess) && |ps| <= PROGRAM_CAP && UniqueIds(ps)
    && forall p :: p in ps ==> p.id != "" && ValidHelperName(p.name)
  }

  ghost predicate UniqueIds(ps: seq<Program>) {
    forall i, j :: 0 <= i < j < |ps| ==> ps[i].id != ps[j].id
  }

  ghost function Rows(ds: seq<Decision>): set<Decision> {
    set d | d in ds
  }

  ghost function Except(rows: set<Decision>, document: string, name: string): set<Decision> {
    set d | d in rows && !About(d, document, name)
  }

  /** Sorted rows are known by what they are. */
  lemma {:induction false} SameRows(a: seq<Decision>, b: seq<Decision>)
    requires TidyDecisions(a) && TidyDecisions(b) && Rows(a) == Rows(b)
    ensures a == b
  {
    DecisionOrder();
    forall d ensures d in a <==> d in b {
      assert d in Rows(a) <==> d in Rows(b);
    }
    OneOrder(a, b, DecisionLess);
  }

  /** The row about a name in a document, their number when there is none. */
  function Find(ds: seq<Decision>, document: string, name: string): (i: nat)
    ensures i <= |ds| && (i < |ds| ==> About(ds[i], document, name)) && forall k :: 0 <= k < i ==> !About(ds[k], document, name)
  {
    if ds == [] || About(ds[0], document, name) then 0
    else
      assert forall k :: 0 < k < |ds| ==> ds[k] == ds[1..][k - 1];
      1 + Find(ds[1..], document, name)
  }

  function FindProgram(ps: seq<Program>, id: string): (i: nat)
    ensures i <= |ps| && (i < |ps| ==> ps[i].id == id) && forall k :: 0 <= k < i ==> ps[k].id != id
  {
    if ps == [] || ps[0].id == id then 0
    else
      assert forall k :: 0 < k < |ps| ==> ps[k] == ps[1..][k - 1];
      1 + FindProgram(ps[1..], id)
  }

  function Drop<T>(xs: seq<T>, i: nat): seq<T>
    requires i < |xs|
  {
    xs[..i] + xs[i + 1..]
  }

  lemma {:induction false} DropTidy(ds: seq<Decision>, i: nat)
    requires TidyDecisions(ds) && i < |ds|
    ensures TidyDecisions(Drop(ds, i)) && Rows(Drop(ds, i)) == Except(Rows(ds), ds[i].document, ds[i].name)
    ensures |Drop(ds, i)| == |ds| - 1
  {
    var less := Drop(ds, i);
    assert forall k :: 0 <= k < |less| ==> less[k] == if k < i then ds[k] else ds[k + 1];
    forall d ensures d in less <==> d in ds && !About(d, ds[i].document, ds[i].name) {
      if d in ds && !About(d, ds[i].document, ds[i].name) {
        var k :| 0 <= k < |ds| && ds[k] == d;
        assert k != i && d == less[if k < i then k else k - 1];
      }
    }
  }

  lemma {:induction false} AppendTidy(ds: seq<Decision>, d: Decision)
    requires TidyDecisions(ds) && WellFormed(d) && |ds| < DECISION_CAP && Find(ds, d.document, d.name) == |ds|
    ensures var sorted := SortBy(ds + [d], DecisionLess); TidyDecisions(sorted) && Rows(sorted) == Rows(ds) + {d} && |sorted| == |ds| + 1
  {
    SortTidy(ds + [d]);
  }

  /** Rows about different names sort into tidy ones. */
  lemma {:induction false} SortTidy(ds: seq<Decision>)
    requires LooseDecisions(ds)
    ensures TidyDecisions(SortBy(ds, DecisionLess)) && Rows(SortBy(ds, DecisionLess)) == Rows(ds) && |SortBy(ds, DecisionLess)| == |ds|
  {
    var sorted := SortBy(ds, DecisionLess);
    DecisionOrder();
    SortInOrder(ds, DecisionLess);
    SortLength(ds, DecisionLess);
    forall i, j | 0 <= i < j < |sorted| ensures !About(sorted[j], sorted[i].document, sorted[i].name) {
      assert sorted[i] in ds && sorted[j] in ds;
      var a :| 0 <= a < |ds| && ds[a] == sorted[i];
      var b :| 0 <= b < |ds| && ds[b] == sorted[j];
      assert DecisionLess(sorted[i], sorted[j]) && !DecisionLess(sorted[j], sorted[j]);
      assert a != b;
    }
  }

  lemma {:induction false} SortLength<T>(xs: seq<T>, less: (T, T) -> bool)
    ensures |SortBy(xs, less)| == |xs|
  {
    if xs != [] {
      SortLength(xs[1..], less);
      InsertedLength(xs[0], SortBy(xs[1..], less), less);
    }
  }

  lemma {:induction false} InsertedLength<T>(x: T, xs: seq<T>, less: (T, T) -> bool)
    ensures |Inserted(x, xs, less)| == |xs| + 1
  {
    if xs != [] {
      InsertedLength(x, xs[1..], less);
    }
  }

  lemma {:induction false} ReplaceTidy(ds: seq<Decision>, i: nat, d: Decision)
    requires TidyDecisions(ds) && WellFormed(d) && i < |ds| && About(ds[i], d.document, d.name)
    ensures var sorted := SortBy(ds[i := d], DecisionLess);
      TidyDecisions(sorted) && Rows(sorted) == Except(Rows(ds), d.document, d.name) + {d} && |sorted| == |ds|
  {
    SortTidy(ds[i := d]);
    forall x ensures x in ds[i := d] <==> x == d || (x in ds && !About(x, d.document, d.name)) {
      if x in ds && !About(x, d.document, d.name) {
        var k :| 0 <= k < |ds| && ds[k] == x;
        assert ds[i := d][k] == x;
      }
      if x in ds[i := d] {
        var k :| 0 <= k < |ds| && ds[i := d][k] == x;
      }
      assert ds[i := d][i] == d;
    }
  }

  // ----- what a name resolves to -----

  /** `program` is set when the answer names exactly one. */
  datatype Resolution = Resolution(decided: bool, allowed: bool, program: Option<Program>, candidates: seq<Program>)

  /** The first `k` registrations of the name, all of them or those allowed for any document. */
  function Named(ps: seq<Program>, name: string, anyOnly: bool, k: nat): seq<Program>
    requires k <= |ps|
  {
    if k == 0 then []
    else Named(ps, name, anyOnly, k - 1) + if ps[k - 1].name == name && (anyOnly ==> ps[k - 1].anyDocument) then [ps[k - 1]] else []
  }

  predicate Allows(ps: seq<Program>, ds: seq<Decision>, document: string, name: string) {
    var i := Find(ds, document, name);
    i < |ds| && ds[i].allowed && FindProgram(ps, ds[i].program) < |ps|
  }

  function Resolve(ps: seq<Program>, ds: seq<Decision>, document: string, name: string): Option<Resolution> {
    if Allows(ps, ds, document, name) then
      Some(Resolution(true, true, Some(ps[FindProgram(ps, ds[Find(ds, document, name)].program)]), []))
    else
      var candidates, any := Named(ps, name, false, |ps|), Named(ps, name, true, |ps|);
      if |any| == 1 then Some(Resolution(true, true, Some(any[0]), []))
      else if candidates == [] then None
      else Some(Resolution(false, false, if |candidates| == 1 then Some(candidates[0]) else None, candidates))
  }

  /** A well-named approval of a registered program that replaces a row or has room. */
  predicate Decidable(ps: seq<Program>, ds: seq<Decision>, d: Decision) {
    && ValidHelperName(d.name) && d.allowed && FindProgram(ps, d.program) < |ps|
    && (Find(ds, d.document, d.name) < |ds| || |ds| < DECISION_CAP)
  }

  // ----- the config -----

  datatype Result<T> = Ok(value: T) | Err

  class HelperStore {
    var programs: seq<Program>
    var decisions: seq<Decision>

    constructor (programs: seq<Program>, decisions: seq<Decision>)
      ensures this.programs == programs && this.decisions == decisions
    {
      this.programs, this.decisions := programs, decisions;
    }

    ghost predicate Tidy()
      reads this
    {
      TidyPrograms(programs) && TidyDecisions(decisions)
    }

    /** AddHelperProgram. `id` was drawn until it was new, unless drawing failed; `clock` is the time. */
    method AddHelperProgram(name: string, path: string, id: Option<string>, clock: int) returns (r: Result<Program>)
      requires TidyPrograms(programs) && (id.Some? ==> id.value != "" && FindProgram(programs, id.value) == |programs|)
      modifies this`programs
      ensures TidyPrograms(programs)
      ensures r.Ok? <==> ValidHelperName(name) && |old(programs)| < PROGRAM_CAP && id.Some?
      ensures r.Err? ==> programs == old(programs)
      ensures r.Ok? ==> programs == old(programs) + [r.value] && r.value.id == id.value && r.value.name == name && r.value.path == path && !r.value.anyDocument
    {
      if !ValidHelperName(name) || |programs| >= PROGRAM_CAP || id.None? {
        return Err;
      }
      var addedAt := clock;
      for i := 0 to |programs|
        invariant forall k :: 0 <= k < i ==> programs[k].addedAt < addedAt
      {
        if programs[i].addedAt >= addedAt {
          addedAt := programs[i].addedAt + 1;
        }
      }
      var p := Program(id.value, name, path, false, addedAt);
      assert forall k :: 0 <= k < |programs| ==> ProgramLess(programs[k], p);
      ProgramOrder();
      SortedStays(programs + [p], ProgramLess);
      programs := SortBy(programs + [p], ProgramLess);
      return Ok(p);
    }

    /** RemoveHelperProgram. */
    method RemoveHelperProgram(id: string) returns (removed: Option<Program>)
      modifies this`programs
      ensures var i := FindProgram(old(programs), id);
        if i < |old(programs)| then removed == Some(old(programs)[i]) && programs == Drop(old(programs), i)
        else removed == None && programs == old(programs)
    {
      var i := 0;
      while i < |programs|
        invariant i <= |programs| && forall k :: 0 <= k < i ==> programs[k].id != id
      {
        if programs[i].id == id {
          removed := Some(programs[i]);
          programs := programs[..i] + programs[i + 1..];
          return;
        }
        i := i + 1;
      }
      return None;
    }

    /** SetHelperAnyDocument; answers what was there before. */
    method SetHelperAnyDocument(id: string, v: bool) returns (previous: Option<bool>)
      modifies this`programs
      ensures var i := FindProgram(old(programs), id);
        if i < |old(programs)| then
          previous == Some(old(programs)[i].anyDocument) && programs == old(programs)[i := old(programs)[i].(anyDocument := v)]
        else previous == None && programs == old(programs)
    {
      for i := 0 to |programs|
        invariant programs == old(programs) && forall k :: 0 <= k < i ==> programs[k].id != id
      {
        if programs[i].id == id {
          previous := Some(programs[i].anyDocument);
          programs := programs[i := programs[i].(anyDocument := v)];
          return;
        }
      }
      return None;
    }

    /** DecideHelper: one row a name and document; answers the row it replaced. */
    method DecideHelper(d: Decision) returns (r: Result<Option<Decision>>)
      requires Tidy()
      modifies this`decisions
      ensures Tidy()
      ensures r.Ok? <==> Decidable(old(programs), old(decisions), d)
      ensures r.Err? ==> decisions == old(decisions)
      ensures r.Ok? ==> Rows(decisions) == Except(Rows(old(decisions)), d.document, d.name) + {d}
      ensures r.Ok? ==> var i := Find(old(decisions), d.document, d.name); r.value == if i < |old(decisions)| then Some(old(decisions)[i]) else None
      ensures r.Ok? ==> |decisions| == |old(decisions)| + if r.value.Some? then 0 else 1
    {
      if !ValidHelperName(d.name) || !d.allowed || FindProgram(programs, d.program) == |programs| {
        return Err;
      }
      var i := Find(decisions, d.document, d.name);
      if i < |decisions| {
        ReplaceTidy(decisions, i, d);
        r := Ok(Some(decisions[i]));
        decisions := SortBy(decisions[i := d], DecisionLess);
        return;
      }
      if |decisions| >= DECISION_CAP {
        return Err;
      }
      AppendTidy(decisions, d);
      NoRowAbout(decisions, d.document, d.name);
      decisions := SortBy(decisions + [d], DecisionLess);
      return Ok(None);
    }

    /** ForgetHelperDecision. */
    method ForgetHelperDecision(document: string, name: string)
      requires TidyDecisions(decisions)
      modifies this`decisions
      ensures TidyDecisions(decisions) && Rows(decisions) == Except(Rows(old(decisions)), document, name)
      ensures Find(old(decisions), document, name) < |old(decisions)| ==> |decisions| == |old(decisions)| - 1
      ensures Find(decisions, document, name) == |decisions|
    {
      var i := Find(decisions, document, name);
      if i < |decisions| {
        DropTidy(decisions, i);
        decisions := Drop(decisions, i);
        NoneLeft(decisions, document, name);
      } else {
        NoRowAbout(decisions, document, name);
      }
    }

    /** RestoreHelperDecisions: each row is put back unless it is malformed, there already or one too many. */
    method RestoreHelperDecisions(ds: seq<Decision>) returns (restored: nat)
      requires TidyDecisions(decisions)
      modifies this`decisions
      ensures TidyDecisions(decisions) && Rows(decisions) == Restored(Rows(old(decisions)), ds)
      ensures |decisions| == |old(decisions)| + restored
    {
      restored := 0;
      for i := 0 to |ds|
        invariant LooseDecisions(decisions) && Restored(Rows(decisions), ds[i..]) == Restored(Rows(old(decisions)), ds)
        invariant |decisions| == |old(decisions)| + restored
      {
        NextRestored(decisions, ds, i);
        if |decisions| < DECISION_CAP && WellFormed(ds[i]) && Find(decisions, ds[i].document, ds[i].name) == |decisions| {
          decisions := decisions + [ds[i]];
          restored := restored + 1;
        }
      }
      SortTidy(decisions);
      decisions := SortBy(decisions, DecisionLess);
    }

    /** ForgetHelperProgramDecisions: the approvals of one program go. */
    method ForgetHelperProgramDecisions(id: string) returns (removed: seq<Decision>)
      requires TidyDecisions(decisions)
      modifies this`decisions
      ensures TidyDecisions(decisions) && Rows(decisions) == Others(Rows(old(decisions)), id)
      ensures TidyDecisions(removed) && Rows(removed) == Rows(old(decisions)) - Rows(decisions)
      ensures removed == [] ==> decisions == old(decisions)
    {
      var kept: seq<Decision> := [];
      removed := [];
      for i := 0 to |decisions|
        invariant decisions == old(decisions)
        invariant IsPart(kept, decisions, i) && IsPart(removed, decisions, i)
        invariant forall k :: 0 <= k < i ==> if Approves(decisions[k], id) then decisions[k] in removed else decisions[k] in kept
        invariant (forall d :: d in removed ==> Approves(d, id)) && forall d :: d in kept ==> !Approves(d, id)
        invariant removed == [] ==> kept == decisions[..i]
      {
        if Approves(decisions[i], id) {
          PartGrows(removed, decisions, i);
          removed := removed + [decisions[i]];
        } else {
          PartGrows(kept, decisions, i);
          kept := kept + [decisions[i]];
        }
      }
      decisions := kept;
    }

    /** RestoreHelperProgram: put back unless it is malformed, there already or one too many. */
    method RestoreHelperProgram(p: Program) returns (restored: bool)
      requires TidyPrograms(programs)
      modifies this`programs
      ensures TidyPrograms(programs)
      ensures restored <==> p.id != "" && ValidHelperName(p.name) && |old(programs)| < PROGRAM_CAP && FindProgram(old(programs), p.id) == |old(programs)|
      ensures forall x :: x in programs <==> x in old(programs) || (restored && x == p)
    {
      if p.id == "" || !ValidHelperName(p.name) || |programs| >= PROGRAM_CAP {
        return false;
      }
      for i := 0 to |programs|
        invariant forall k :: 0 <= k < i ==> programs[k].id != p.id
      {
        if programs[i].id == p.id {
          return false;
        }
      }
      SortProgramsTidy(programs, p);
      programs := SortBy(programs + [p], ProgramLess);
      return true;
    }
  }

  /** An approval of that program. */
  predicate Approves(d: Decision, id: string) {
    d.allowed && d.program == id
  }

  ghost function Others(rows: set<Decision>, id: string): set<Decision> {
    set d | d in rows && !Approves(d, id)
  }

  ghost predicate Restorable(rows: set<Decision>, d: Decision) {
    |rows| < DECISION_CAP && WellFormed(d) && Except(rows, d.document, d.name) == rows
  }

  /** The rows once more are restored, one after the other. */
  ghost function Restored(rows: set<Decision>, ds: seq<Decision>): set<Decision>
    decreases |ds|
  {
    if ds == [] then rows else Restored(if Restorable(rows, ds[0]) then rows + {ds[0]} else rows, ds[1..])
  }

  /** Rows about different names, few enough. */
  ghost predicate ApartRows(rows: set<Decision>) {
    |rows| <= DECISION_CAP && (forall d :: d in rows ==> WellFormed(d)) && forall a, b :: a in rows && b in rows && a != b ==> !About(a, b.document, b.name)
  }

  lemma {:induction false} LooseApart(ds: seq<Decision>)
    requires LooseDecisions(ds)
    ensures ApartRows(Rows(ds)) && NoRepeats(ds)
  {
    LooseCount(ds);
    forall i, j | 0 <= i < j < |ds| ensures ds[i] != ds[j] {
      assert !About(ds[j], ds[i].document, ds[i].name);
    }
  }

  /** Rows taken from others that belong together find room and none in their place, so restoring them gives all back. */
  lemma {:induction false} TakenComeBack(all: set<Decision>, kept: set<Decision>, taken: seq<Decision>)
    requires ApartRows(all) && Split(all, kept, Rows(taken)) && NoRepeats(taken)
    ensures Restored(kept, taken) == all
    decreases |taken|
  {
    if taken != [] {
      FirstRow(taken);
      MoveOne(all, kept, Rows(taken), taken[0], Rows(taken[1..]));
      FindRoom(all, kept, taken[0]);
      OneRestored(kept, taken);
      TakenComeBack(all, kept + {taken[0]}, taken[1..]);
    }
  }

  ghost predicate Split(all: set<Decision>, kept: set<Decision>, taken: set<Decision>) {
    kept + taken == all && kept !! taken
  }

  lemma {:induction false} MoveOne(all: set<Decision>, kept: set<Decision>, taken: set<Decision>, d: Decision, rest: set<Decision>)
    requires Split(all, kept, taken) && taken == {d} + rest && d !in rest
    ensures Split(all, kept + {d}, rest) && kept <= all && d in all && d !in kept
  {
  }

  lemma {:induction false} OneRestored(rows: set<Decision>, ds: seq<Decision>)
    requires ds != []
    ensures Restored(rows, ds) == Restored(if Restorable(rows, ds[0]) then rows + {ds[0]} else rows, ds[1..])
  {
  }

  lemma {:induction false} NextRestored(now: seq<Decision>, ds: seq<Decision>, i: nat)
    requires LooseDecisions(now) && i < |ds|
    ensures var fits := |now| < DECISION_CAP && WellFormed(ds[i]) && Find(now, ds[i].document, ds[i].name) == |now|;
      && (fits ==> LooseDecisions(now + [ds[i]]))
      && Restored(Rows(now), ds[i..]) == Restored(Rows(if fits then now + [ds[i]] else now), ds[i + 1..])
  {
    var d := ds[i];
    OneRestored(Rows(now), ds[i..]);
    assert ds[i..][1..] == ds[i + 1..];
    LooseCount(now);
    var at := Find(now, d.document, d.name);
    if at < |now| {
      assert now[at] in Rows(now);
    } else {
      NoRowAbout(now, d.document, d.name);
      assert Rows(now + [d]) == Rows(now) + {d};
    }
  }

  lemma {:induction false} FirstRow(ds: seq<Decision>)
    requires ds != [] && NoRepeats(ds)
    ensures Rows(ds) == {ds[0]} + Rows(ds[1..]) && ds[0] !in Rows(ds[1..]) && NoRepeats(ds[1..])
  {
    assert ds == [ds[0]] + ds[1..];
  }

  lemma {:induction false} FindRoom(all: set<Decision>, rows: set<Decision>, d: Decision)
    requires ApartRows(all) && rows <= all && d in all && d !in rows
    ensures Restorable(rows, d)
  {
    MoreRows(rows, all, d);
    assert forall x :: x in rows ==> !About(x, d.document, d.name);
  }

  lemma {:induction false} MoreRows(some: set<Decision>, all: set<Decision>, d: Decision)
    requires some <= all && d in all && d !in some
    ensures |some| < |all|
  {
    assert some <= all - {d};
    Fewer(some, all - {d});
  }

  lemma {:induction false} Fewer<T>(some: set<T>, all: set<T>)
    requires some <= all
    ensures |some| <= |all|
  {
    if some != {} {
      var x :| x in some;
      Fewer(some - {x}, all - {x});
    }
  }

  lemma {:induction false} RowCount(ds: seq<Decision>)
    requires NoRepeats(ds)
    ensures |Rows(ds)| == |ds|
    decreases |ds|
  {
    if ds != [] {
      var init, last := ds[..|ds| - 1], ds[|ds| - 1];
      RowCount(init);
      assert ds == init + [last];
      assert last !in init;
      assert Rows(ds) == Rows(init) + {last};
    }
  }

  lemma {:induction false} LooseCount(ds: seq<Decision>)
    requires LooseDecisions(ds)
    ensures |Rows(ds)| == |ds|
  {
    forall i, j | 0 <= i < j < |ds| ensures ds[i] != ds[j] {
      assert !About(ds[j], ds[i].document, ds[i].name);
    }
    RowCount(ds);
  }

  /** Some of the first `i` rows, in their order. */
  ghost predicate IsPart(part: seq<Decision>, ds: seq<Decision>, i: nat) {
    && i <= |ds| && |part| <= i && TidyDecisions(part)
    && forall d :: d in part ==> exists k :: 0 <= k < i && ds[k] == d
  }

  lemma {:induction false} PartGrows(part: seq<Decision>, ds: seq<Decision>, i: nat)
    requires TidyDecisions(ds) && i < |ds| && IsPart(part, ds, i)
    ensures IsPart(part + [ds[i]], ds, i + 1)
  {
    forall k | 0 <= k < |part| ensures DecisionLess(part[k], ds[i]) && !About(ds[i], part[k].document, part[k].name) {
      assert part[k] in part;
    }
    assert ds[i] in ds;
  }

  lemma {:induction false} SortProgramsTidy(ps: seq<Program>, p: Program)
    requires TidyPrograms(ps) && |ps| < PROGRAM_CAP && p.id != "" && ValidHelperName(p.name) && FindProgram(ps, p.id) == |ps|
    ensures var sorted := SortBy(ps + [p], ProgramLess); TidyPrograms(sorted) && forall x :: x in sorted <==> x in ps || x == p
  {
    var all, sorted := ps + [p], SortBy(ps + [p], ProgramLess);
    ProgramOrder();
    CodeOrderIsTotal();
    assert forall i, j :: 0 <= i < j < |all| ==> all[i].id != all[j].id;
    SortInOrder(all, ProgramLess);
    SortLength(all, ProgramLess);
    forall i, j | 0 <= i < j < |sorted| ensures sorted[i].id != sorted[j].id {
      assert sorted[i] in all && sorted[j] in all;
      var a :| 0 <= a < |all| && all[a] == sorted[i];
      var b :| 0 <= b < |all| && all[b] == sorted[j];
      assert ProgramLess(sorted[i], sorted[j]) && !ProgramLess(sorted[j], sorted[j]);
      assert a != b;
    }
  }

  lemma {:induction false} DropProgramTidy(ps: seq<Program>, i: nat)
    requires TidyPrograms(ps) && i < |ps|
    ensures TidyPrograms(Drop(ps, i)) && FindProgram(Drop(ps, i), ps[i].id) == |ps| - 1
  {
    var less := Drop(ps, i);
    assert forall k :: 0 <= k < |less| ==> less[k] == if k < i then ps[k] else ps[k + 1];
  }

  lemma {:induction false} DropProgram(ps: seq<Program>, i: nat)
    requires i < |ps|
    ensures forall x :: x in Drop(ps, i) || x == ps[i] <==> x in ps
  {
    forall x | x in ps && x != ps[i] ensures x in Drop(ps, i) {
      var k :| 0 <= k < |ps| && ps[k] == x;
      assert x == Drop(ps, i)[if k < i then k else k - 1];
    }
  }

  /** Sorted registrations are known by what they are. */
  lemma {:induction false} SamePrograms(a: seq<Program>, b: seq<Program>)
    requires TidyPrograms(a) && TidyPrograms(b) && forall p :: p in a <==> p in b
    ensures a == b
  {
    ProgramOrder();
    OneOrder(a, b, ProgramLess);
  }

  /** ResolveHelper. */
  method ResolveHelper(ps: seq<Program>, ds: seq<Decision>, document: string, name: string) returns (r: Option<Resolution>)
    ensures r == Resolve(ps, ds, document, name)
  {
    var i := Find(ds, document, name);
    if i < |ds| && ds[i].allowed {
      var p := FindProgram(ps, ds[i].program);
      if p < |ps| {
        return Some(Resolution(true, true, Some(ps[p]), []));
      }
    }
    var candidates: seq<Program>, any: seq<Program> := [], [];
    for k := 0 to |ps|
      invariant candidates == Named(ps, name, false, k) && any == Named(ps, name, true, k)
    {
      if ps[k].name != name {
        continue;
      }
      candidates := candidates + [ps[k]];
      if ps[k].anyDocument {
        any := any + [ps[k]];
      }
    }
    if |any| == 1 {
      return Some(Resolution(true, true, Some(any[0]), []));
    }
    if |candidates| == 0 {
      return None;
    }
    return Some(Resolution(false, false, if |candidates| == 1 then Some(candidates[0]) else None, candidates));
  }

  predicate Registers(p: Program, name: string, anyOnly: bool) {
    p.name == name && (anyOnly ==> p.anyDocument)
  }

  /** The registration at `i`, and no other of the first `k`, has that name. */
  ghost predicate Only(ps: seq<Program>, name: string, anyOnly: bool, k: nat, i: int)
    requires k <= |ps|
  {
    && 0 <= i < k && Registers(ps[i], name, anyOnly)
    && forall j :: 0 <= j < k && Registers(ps[j], name, anyOnly) ==> j == i
  }

  lemma {:induction false} NoneNamed(ps: seq<Program>, name: string, anyOnly: bool, k: nat)
    requires k <= |ps|
    ensures Named(ps, name, anyOnly, k) == [] <==> forall j :: 0 <= j < k ==> !Registers(ps[j], name, anyOnly)
  {
    if k > 0 {
      NoneNamed(ps, name, anyOnly, k - 1);
    }
  }

  /** One name is found just when one registration alone has it, and then it is that one. */
  ghost predicate OneIsOnly(ps: seq<Program>, name: string, anyOnly: bool, k: nat)
    requires k <= |ps|
  {
    && (|Named(ps, name, anyOnly, k)| == 1 <==> exists i :: Only(ps, name, anyOnly, k, i))
    && forall i :: Only(ps, name, anyOnly, k, i) ==> Named(ps, name, anyOnly, k) == [ps[i]]
  }

  lemma {:induction false} OneNamed(ps: seq<Program>, name: string, anyOnly: bool, k: nat)
    requires k <= |ps|
    ensures OneIsOnly(ps, name, anyOnly, k)
  {
    if k > 0 {
      if Registers(ps[k - 1], name, anyOnly) {
        LastNamed(ps, name, anyOnly, k - 1);
      } else {
        OneNamed(ps, name, anyOnly, k - 1);
        LastUnnamed(ps, name, anyOnly, k - 1);
      }
    }
  }

  lemma {:induction false} LastNamed(ps: seq<Program>, name: string, anyOnly: bool, k: nat)
    requires k < |ps| && Registers(ps[k], name, anyOnly)
    ensures OneIsOnly(ps, name, anyOnly, k + 1)
  {
    var next := k + 1;
    NoneNamed(ps, name, anyOnly, k);
    if Named(ps, name, anyOnly, k) == [] {
      assert Only(ps, name, anyOnly, next, k);
    } else {
      var j :| 0 <= j < k && Registers(ps[j], name, anyOnly);
      forall i ensures !Only(ps, name, anyOnly, next, i) {
        assert i != j || i != k;
      }
    }
  }

  lemma {:induction false} LastUnnamed(ps: seq<Program>, name: string, anyOnly: bool, k: nat)
    requires k < |ps| && !Registers(ps[k], name, anyOnly) && OneIsOnly(ps, name, anyOnly, k)
    ensures OneIsOnly(ps, name, anyOnly, k + 1)
  {
    assert Named(ps, name, anyOnly, k + 1) == Named(ps, name, anyOnly, k);
    if |Named(ps, name, anyOnly, k)| == 1 {
      var i :| Only(ps, name, anyOnly, k, i);
      assert Only(ps, name, anyOnly, k + 1, i);
    }
    forall i | Only(ps, name, anyOnly, k + 1, i) ensures Only(ps, name, anyOnly, k, i) {
    }
  }

  /**
   Without an approval of its own a document never gets one of several registrations: a name is decided
   just when one registration alone has it for any document, it is undecided with that program when one
   alone has the name at all, and otherwise undecided with every registration of the name to choose from.
   */
  lemma {:induction false} NeverPicks(ps: seq<Program>, ds: seq<Decision>, document: string, name: string)
    requires !Allows(ps, ds, document, name)
    ensures match Resolve(ps, ds, document, name)
      case None => forall p :: p in ps ==> p.name != name
      case Some(r) =>
        && (exists p :: p in ps && p.name == name)
        && (r.decided <==> exists i :: Only(ps, name, true, |ps|, i))
        && (forall i :: Only(ps, name, true, |ps|, i) ==> r == Resolution(true, true, Some(ps[i]), []))
        && (!r.decided ==> !r.allowed && OffersAll(ps, name, r))
  {
    OneNamed(ps, name, true, |ps|);
    NamedAre(ps, name, false, |ps|);
    NamedAre(ps, name, true, |ps|);
    var candidates, any := Named(ps, name, false, |ps|), Named(ps, name, true, |ps|);
    if |any| == 1 {
      assert any[0] in any && any[0] in candidates;
    } else if candidates != [] {
      assert candidates[0] in candidates;
      AllOffered(ps, name);
    }
  }

  lemma {:induction false} AllOffered(ps: seq<Program>, name: string)
    ensures var candidates := Named(ps, name, false, |ps|);
      OffersAll(ps, name, Resolution(false, false, if |candidates| == 1 then Some(candidates[0]) else None, candidates))
  {
    OneNamed(ps, name, false, |ps|);
    NamedAre(ps, name, false, |ps|);
  }

  /** Every registration of the name is offered, and one is preset just when it is the only one. */
  ghost predicate OffersAll(ps: seq<Program>, name: string, r: Resolution) {
    && (forall p :: p in r.candidates <==> p in ps && p.name == name)
    && (r.program.Some? <==> exists i :: Only(ps, name, false, |ps|, i))
    && forall i :: Only(ps, name, false, |ps|, i) ==> r.program == Some(ps[i])
  }

  /** The candidates are the registrations of that name. */
  lemma {:induction false} NamedAre(ps: seq<Program>, name: string, anyOnly: bool, k: nat)
    requires k <= |ps|
    ensures forall p :: p in Named(ps, name, anyOnly, k) <==> exists i :: 0 <= i < k && ps[i] == p && p.name == name && (anyOnly ==> p.anyDocument)
  {
    if k > 0 {
      NamedAre(ps, name, anyOnly, k - 1);
    }
  }

  lemma {:induction false} NoRowAbout(ds: seq<Decision>, document: string, name: string)
    requires Find(ds, document, name) == |ds|
    ensures Except(Rows(ds), document, name) == Rows(ds)
  {
  }

  lemma {:induction false} NoneLeft(ds: seq<Decision>, document: string, name: string)
    requires forall d :: d in Rows(ds) ==> !About(d, document, name)
    ensures Find(ds, document, name) == |ds|
  {
    var i := Find(ds, document, name);
    assert i < |ds| ==> ds[i] in Rows(ds);
  }
}
