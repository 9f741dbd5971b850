/**
 Saving a set of approvals (saveHelperDecisionSetLocked of cmd/htmlclay/helpers.go): programs are
 registered, perhaps allowed for any document, and decisions recorded; when any step fails, everything is
 taken back, and the configuration is exactly what it was.
 */
module HelperTransaction {
  import opened HelperConfig
  import opened Orders
  import opened Values

  /** `program` is the one chosen, none when the file picked has to be found or registered; `registered` are the programs it may be. */
  datatype Candidate = Candidate(name: string, path: string, program: Option<Program>, registered: seq<Program>)

  /** What stands outside: whether two paths are one file, the time, the ids drawn, and the disk. */
  datatype World = World(sameFile: (string, string) -> bool, clock: int, draw: seq<Program> -> Option<string>, saves: bool)

  /** An id is drawn until it is new. */
  ghost predicate DrawsNew(world: World) {
    forall ps {:trigger world.draw(ps)} :: world.draw(ps).Some? ==> FindProgram(ps, world.draw(ps).value) == |ps| && world.draw(ps).value != ""
  }

  /** registeredAtPath: the same path first, then the same file. */
  function RegisteredAtPath(world: World, programs: seq<Program>, path: string): Option<Program> {
    if FirstAt(programs, path) < |programs| then Some(programs[FirstAt(programs, path)]) else SameFileAs(world, programs, path)
  }

  function FirstAt(programs: seq<Program>, path: string): (i: nat)
    ensures i <= |programs|
  {
    if programs == [] || programs[0].path == path then 0 else 1 + FirstAt(programs[1..], path)
  }

  function SameFileAs(world: World, programs: seq<Program>, path: string): Option<Program> {
    if programs == [] then None
    else if world.sameFile(programs[0].path, path) then Some(programs[0])
    else SameFileAs(world, programs[1..], path)
  }

  /** The program picked, or the one the file belongs to. */
  function Known(world: World, candidate: Candidate): Option<Program> {
    if candidate.program.Some? then candidate.program else RegisteredAtPath(world, candidate.registered, candidate.path)
  }

  /** How many of the first `k` candidates have to be registered. */
  function Unregistered(world: World, candidates: seq<Candidate>, k: nat): nat
    requires k <= |candidates|
  {
    if k == 0 then 0 else Unregistered(world, candidates, k - 1) + if Known(world, candidates[k - 1]).None? then 1 else 0
  }

  lemma {:induction false} MoreUnregistered(world: World, candidates: seq<Candidate>, i: nat, k: nat)
    requires i <= k <= |candidates|
    ensures Unregistered(world, candidates, i) <= Unregistered(world, candidates, k)
    decreases k
  {
    if i < k {
      MoreUnregistered(world, candidates, i, k - 1);
    }
  }

  /** Names of the first `k` candidates the document has no row about. */
  function NewNames(ds: seq<Decision>, document: string, candidates: seq<Candidate>, k: nat): set<string>
    requires k <= |candidates|
  {
    set i | 0 <= i < k && Find(ds, document, candidates[i].name) == |ds| :: candidates[i].name
  }

  /** Every draw succeeds, with an id that none of the candidates' programs has. */
  ghost predicate DrawsApart(world: World, candidates: seq<Candidate>) {
    forall ps {:trigger world.draw(ps)} ::
      world.draw(ps).Some? && forall k :: 0 <= k < |candidates| && Known(world, candidates[k]).Some? ==> Known(world, candidates[k]).value.id != world.draw(ps).value
  }

  /** The names are valid, the programs known are registered, and there is room for the others and for the new decisions. */
  ghost predicate CanRegister(world: World, ps: seq<Program>, candidates: seq<Candidate>) {
    && (forall k :: 0 <= k < |candidates| && Known(world, candidates[k]).None? ==> ValidHelperName(candidates[k].name))
    && |ps| + Unregistered(world, candidates, |candidates|) <= PROGRAM_CAP
  }

  ghost predicate CanDecide(ps: seq<Program>, ds: seq<Decision>, document: string, candidates: seq<Candidate>, chosen: seq<Program>)
    requires |chosen| == |candidates|
  {
    && AllDecidable(ps, candidates, chosen, |candidates|)
    && |ds| + |NewNames(ds, document, candidates, |candidates|)| <= DECISION_CAP
  }

  ghost predicate CanSave(world: World, ps: seq<Program>, ds: seq<Decision>, document: string, candidates: seq<Candidate>) {
    && (forall k :: 0 <= k < |candidates| ==>
      ValidHelperName(candidates[k].name) && (Known(world, candidates[k]).Some? ==> FindProgram(ps, Known(world, candidates[k]).value.id) < |ps|))
    && |ps| + Unregistered(world, candidates, |candidates|) <= PROGRAM_CAP
    && |ds| + |NewNames(ds, document, candidates, |candidates|)| <= DECISION_CAP
  }

  /** What was recorded to undo. */
  datatype DecisionUndo = DecisionUndo(name: string, previous: Option<Decision>)

  // ----- programs with some flags set -----

  function Flagged(base: seq<Program>, ids: set<string>): (r: seq<Program>)
    ensures |r| == |base| && forall k :: 0 <= k < |base| ==> r[k] == if base[k].id in ids then base[k].(anyDocument := true) else base[k]
  {
    seq(|base|, k requires 0 <= k < |base| => if base[k].id in ids then base[k].(anyDocument := true) else base[k])
  }

  lemma {:induction false} FlaggedFinds(base: seq<Program>, ids: set<string>, id: string)
    ensures FindProgram(Flagged(base, ids), id) == FindProgram(base, id)
  {
  }

  lemma {:induction false} FlagOne(base: seq<Program>, ids: set<string>, id: string)
    requires UniqueIds(base) && id !in ids && FindProgram(base, id) < |base|
    ensures var i, now := FindProgram(base, id), Flagged(base, ids);
      now[i].anyDocument == base[i].anyDocument
      && now[i := now[i].(anyDocument := true)] == Flagged(base, ids + {id})
      && Flagged(base, ids + {id})[i := Flagged(base, ids + {id})[i].(anyDocument := base[i].anyDocument)] == now
  {
  }

  lemma {:induction false} FlaggedTidy(base: seq<Program>, ids: set<string>)
    requires TidyPrograms(base)
    ensures TidyPrograms(Flagged(base, ids))
  {
  }

  lemma {:induction false} NoFlags(base: seq<Program>)
    ensures Flagged(base, {}) == base
  {
  }

  // ----- taking back -----

  /** `trail` are the rows as they were before each decision; undoing the last `k` leads back along it. */
  ghost predicate Undoes(undo: seq<DecisionUndo>, document: string, trail: seq<set<Decision>>) {
    && |trail| == |undo| + 1
    && forall i :: 0 <= i < |undo| ==> UndoesOne(undo[i], document, trail[i], trail[i + 1])
  }

  ghost predicate UndoesOne(undo: DecisionUndo, document: string, before: set<Decision>, after: set<Decision>) {
    match undo.previous
    case Some(d) =>
      About(d, document, undo.name) && WellFormed(d) && Except(after, document, undo.name) + {d} == before && |after| == |before|
    case None => Except(after, document, undo.name) == before
  }

  /** Undoes the decisions, last first. */
  method UndoDecisions(c: HelperStore, undo: seq<DecisionUndo>, document: string, ghost trail: seq<set<Decision>>)
    requires TidyDecisions(c.decisions) && Undoes(undo, document, trail) && Rows(c.decisions) == trail[|undo|]
    modifies c`decisions
    ensures TidyDecisions(c.decisions) && Rows(c.decisions) == trail[0]
  {
    var i := |undo|;
    while i > 0
      invariant 0 <= i <= |undo| && TidyDecisions(c.decisions) && Rows(c.decisions) == trail[i]
    {
      i := i - 1;
      assert UndoesOne(undo[i], document, trail[i], trail[i + 1]);
      UndoDecision(c, undo[i], document, trail[i], trail[i + 1]);
    }
  }

  method UndoDecision(c: HelperStore, undo: DecisionUndo, document: string, ghost before: set<Decision>, ghost after: set<Decision>)
    requires TidyDecisions(c.decisions) && Rows(c.decisions) == after && UndoesOne(undo, document, before, after)
    modifies c`decisions
    ensures TidyDecisions(c.decisions) && Rows(c.decisions) == before
  {
    ghost var had := c.decisions;
    c.ForgetHelperDecision(document, undo.name);
    if undo.previous.Some? {
      RoomForOne(had, c.decisions, document, undo.name, undo.previous.value, before);
      LooseCount(c.decisions);
      OneRestored(Rows(c.decisions), undo.previous.value);
      var restored := c.RestoreHelperDecisions([undo.previous.value]);
    }
  }

  lemma {:induction false} OneRestored(rows: set<Decision>, d: Decision)
    requires Restorable(rows, d)
    ensures Restored(rows, [d]) == rows + {d}
  {
    assert Restored(rows + {d}, [d][1..]) == rows + {d};
  }

  /** A row taken out leaves room for the one it had replaced. */
  lemma {:induction false} RoomForOne(had: seq<Decision>, now: seq<Decision>, document: string, name: string, d: Decision, before: set<Decision>)
    requires TidyDecisions(had) && TidyDecisions(now) && Rows(now) == Except(Rows(had), document, name)
    requires About(d, document, name) && Rows(now) + {d} == before && |Rows(had)| == |before|
    ensures |now| < DECISION_CAP
  {
    LooseCount(had);
    LooseCount(now);
    assert d !in Rows(now);
  }

  /** Takes the flags back, in any order. */
  method UndoFlags(c: HelperStore, flags: map<string, bool>, ghost base: seq<Program>)
    requires UniqueIds(base) && c.programs == Flagged(base, flags.Keys)
    requires forall id :: id in flags ==> FindProgram(base, id) < |base| && flags[id] == base[FindProgram(base, id)].anyDocument
    modifies c`programs
    ensures c.programs == base
  {
    var rest := flags.Keys;
    while rest != {}
      invariant rest <= flags.Keys && c.programs == Flagged(base, rest)
      decreases rest
    {
      var id :| id in rest;
      FlaggedFinds(base, rest, id);
      FlagOne(base, rest - {id}, id);
      assert rest - {id} + {id} == rest;
      var previous := c.SetHelperAnyDocument(id, flags[id]);
      rest := rest - {id};
    }
    NoFlags(base);
  }

  /** Takes the registrations back, last first. */
  method UndoPrograms(c: HelperStore, added: seq<Program>, ghost start: seq<Program>)
    requires TidyPrograms(start + added) && c.programs == start + added
    modifies c`programs
    ensures c.programs == start
  {
    var i := |added|;
    assert added[..i] == added;
    while i > 0
      invariant i <= |added| && c.programs == start + added[..i]
    {
      i := i - 1;
      LastProgram(start, added, i);
      var removed := c.RemoveHelperProgram(added[i].id);
    }
    assert start + added[..0] == start;
  }

  lemma {:induction false} LastProgram(start: seq<Program>, added: seq<Program>, i: nat)
    requires i < |added| && TidyPrograms(start + added)
    ensures var ps, at := start + added[..i + 1], FindProgram(start + added[..i + 1], added[i].id);
      at == |ps| - 1 && Drop(ps, at) == start + added[..i]
  {
    var ps, all := start + added[..i + 1], start + added;
    assert forall k :: 0 <= k < |ps| ==> ps[k] == all[k];
    assert ps[|ps| - 1] == added[i] && all[|ps| - 1] == added[i];
    assert ps[..|ps| - 1] == start + added[..i];
  }

  // ----- the transaction -----

  /** Everything a rollback needs, and what it leads back to. */
  ghost predicate CanRollBack(c: HelperStore, startPrograms: seq<Program>, startDecisions: seq<Decision>, added: seq<Program>,
                              flags: map<string, bool>, undo: seq<DecisionUndo>, document: string, trail: seq<set<Decision>>)
    reads c
  {
    var base := startPrograms + added;
    && TidyPrograms(base) && c.programs == Flagged(base, flags.Keys)
    && (forall id :: id in flags ==> FindProgram(base, id) < |base| && flags[id] == base[FindProgram(base, id)].anyDocument)
    && TidyDecisions(startDecisions) && TidyDecisions(c.decisions)
    && Undoes(undo, document, trail) && trail[0] == Rows(startDecisions) && trail[|undo|] == Rows(c.decisions)
  }

  /** The rollback restores both lists element for element. */
  method RollBack(c: HelperStore, added: seq<Program>, flags: map<string, bool>, undo: seq<DecisionUndo>, document: string,
                  ghost startPrograms: seq<Program>, ghost startDecisions: seq<Decision>, ghost trail: seq<set<Decision>>)
    requires CanRollBack(c, startPrograms, startDecisions, added, flags, undo, document, trail)
    modifies c
    ensures c.programs == startPrograms && c.decisions == startDecisions
  {
    UndoDecisions(c, undo, document, trail);
    SameRows(c.decisions, startDecisions);
    UndoFlags(c, flags, startPrograms + added);
    UndoPrograms(c, added, startPrograms);
  }

  // ----- the steps -----

  /** Finds or registers a program for every candidate; a step that fails leaves what was added so far. */
  method Register(c: HelperStore, world: World, candidates: seq<Candidate>) returns (ok: bool, chosen: seq<Program>, added: seq<Program>)
    requires TidyPrograms(c.programs) && DrawsNew(world)
    modifies c`programs
    ensures TidyPrograms(c.programs) && c.programs == old(c.programs) + added
    ensures Chosen(world, candidates, chosen, added) && (ok ==> |chosen| == |candidates|)
    ensures !ok ==> |chosen| < |candidates| && Known(world, candidates[|chosen|]).None? && !CanAdd(world, c.programs, candidates[|chosen|])
  {
    chosen, added := [], [];
    assert c.programs + [] == c.programs;
    for i := 0 to |candidates|
      invariant TidyPrograms(c.programs) && c.programs == old(c.programs) + added && Chosen(world, candidates, chosen, added) && |chosen| == i
    {
      ok, chosen, added := ChooseNext(c, world, candidates, chosen, added, old(c.programs));
      if !ok {
        return;
      }
    }
    ok := true;
  }

  method ChooseNext(c: HelperStore, world: World, candidates: seq<Candidate>, chosen: seq<Program>, added: seq<Program>, ghost start: seq<Program>)
    returns (ok: bool, chosen': seq<Program>, added': seq<Program>)
    requires TidyPrograms(c.programs) && DrawsNew(world) && c.programs == start + added
    requires |chosen| < |candidates| && Chosen(world, candidates, chosen, added)
    modifies c`programs
    ensures TidyPrograms(c.programs) && c.programs == start + added'
    ensures |chosen'| == |chosen| + (if ok then 1 else 0) && Chosen(world, candidates, chosen', added')
    ensures !ok ==> Known(world, candidates[|chosen|]).None? && !CanAdd(world, c.programs, candidates[|chosen|])
  {
    var choice, isNew := Choose(c, world, candidates[|chosen|]);
    if choice.None? {
      return false, chosen, added;
    }
    NextChoice(world, candidates, chosen, added, choice.value, isNew);
    return true, chosen + [choice.value], if isNew then added + [choice.value] else added;
  }

  predicate CanAdd(world: World, ps: seq<Program>, candidate: Candidate) {
    ValidHelperName(candidate.name) && |ps| < PROGRAM_CAP && world.draw(ps).Some?
  }

  /** The choices for the first candidates, and the registrations made for them. */
  ghost predicate Chosen(world: World, candidates: seq<Candidate>, chosen: seq<Program>, added: seq<Program>) {
    var k := |chosen|;
    && k <= |candidates| && |added| == Unregistered(world, candidates, k) && Drawn(world, added)
    && (forall i :: 0 <= i < k ==> IsChoice(world, candidates[i], chosen[i], added))
    && forall i :: 0 <= i < k && Known(world, candidates[i]).None? ==> ValidHelperName(candidates[i].name)
  }

  lemma {:induction false} NextChoice(world: World, candidates: seq<Candidate>, chosen: seq<Program>, added: seq<Program>, p: Program, isNew: bool)
    requires |chosen| < |candidates| && Chosen(world, candidates, chosen, added) && IsChoice(world, candidates[|chosen|], p, [p])
    requires isNew <==> Known(world, candidates[|chosen|]).None?
    requires isNew ==> ValidHelperName(candidates[|chosen|].name) && exists ps {:trigger world.draw(ps)} :: world.draw(ps) == Some(p.id)
    ensures Chosen(world, candidates, chosen + [p], if isNew then added + [p] else added)
  {
  }

  /** Every candidate is chosen for just when all of them can be registered that have to be. */
  lemma {:induction false} ChosenForAll(world: World, start: seq<Program>, candidates: seq<Candidate>, chosen: seq<Program>, added: seq<Program>)
    requires Chosen(world, candidates, chosen, added) && |start + added| <= PROGRAM_CAP
    requires var k := |chosen|; k < |candidates| ==> Known(world, candidates[k]).None? && !CanAdd(world, start + added, candidates[k])
    ensures |chosen| == |candidates| ==> CanRegister(world, start, candidates)
    ensures |chosen| < |candidates| && DrawsApart(world, candidates) ==> !CanRegister(world, start, candidates)
  {
    var k := |chosen|;
    if k < |candidates| && DrawsApart(world, candidates) {
      MoreUnregistered(world, candidates, k + 1, |candidates|);
      assert world.draw(start + added).Some?;
    }
  }

  method Choose(c: HelperStore, world: World, candidate: Candidate) returns (choice: Option<Program>, isNew: bool)
    requires TidyPrograms(c.programs) && DrawsNew(world)
    modifies c`programs
    ensures TidyPrograms(c.programs) && (isNew <==> choice.Some? && Known(world, candidate).None?)
    ensures choice.Some? <==> Known(world, candidate).Some? || CanAdd(world, old(c.programs), candidate)
    ensures choice.Some? ==> IsChoice(world, candidate, choice.value, [choice.value])
    ensures c.programs == if isNew then old(c.programs) + [choice.value] else old(c.programs)
    ensures isNew ==> world.draw(old(c.programs)) == Some(choice.value.id)
  {
    if candidate.program.Some? {
      return candidate.program, false;
    }
    var known := RegisteredAtPath(world, candidate.registered, candidate.path);
    if known.Some? {
      return known, false;
    }
    var program := c.AddHelperProgram(candidate.name, candidate.path, world.draw(c.programs), world.clock);
    return if program.Ok? then Some(program.value) else None, program.Ok?;
  }

  ghost predicate Drawn(world: World, added: seq<Program>) {
    forall p :: p in added ==> exists ps {:trigger world.draw(ps)} :: world.draw(ps) == Some(p.id)
  }

  /** The program known, or a new registration of the file. */
  ghost predicate IsChoice(world: World, candidate: Candidate, p: Program, added: seq<Program>) {
    match Known(world, candidate)
    case Some(q) => p == q
    case None => p in added && p.name == candidate.name && p.path == candidate.path
  }

  /** Allows each program for any document, once, and remembers what it was. */
  method AllowAny(c: HelperStore, chosen: seq<Program>, ghost base: seq<Program>) returns (ok: bool, flags: map<string, bool>)
    requires UniqueIds(base) && c.programs == base
    modifies c`programs
    ensures FlagsHeld(c.programs, base, flags)
    ensures ok ==> flags.Keys == Ids(chosen)
    ensures !ok ==> exists p :: p in chosen && FindProgram(base, p.id) == |base|
  {
    flags := map[];
    NoFlags(base);
    assert flags.Keys == {};
    for i := 0 to |chosen|
      invariant FlagsHeld(c.programs, base, flags)
      invariant flags.Keys == Ids(chosen[..i])
    {
      NextId(chosen, i);
      if chosen[i].id in flags {
        continue;
      }
      var previous := AllowOne(c, chosen[i].id, flags.Keys, base);
      if previous.None? {
        return false, flags;
      }
      flags := flags[chosen[i].id := previous.value];
    }
    assert chosen[..|chosen|] == chosen;
    ok := true;
  }

  method AllowOne(c: HelperStore, id: string, ghost ids: set<string>, ghost base: seq<Program>) returns (previous: Option<bool>)
    requires UniqueIds(base) && c.programs == Flagged(base, ids) && id !in ids
    modifies c`programs
    ensures var i := FindProgram(base, id);
      if i < |base| then previous == Some(base[i].anyDocument) && c.programs == Flagged(base, ids + {id})
      else previous == None && c.programs == old(c.programs)
  {
    FlaggedFinds(base, ids, id);
    if FindProgram(base, id) < |base| {
      FlagOne(base, ids, id);
    }
    previous := c.SetHelperAnyDocument(id, true);
  }

  function Ids(ps: seq<Program>): set<string> {
    set p | p in ps :: p.id
  }

  lemma {:induction false} NextId(ps: seq<Program>, i: nat)
    requires i < |ps|
    ensures Ids(ps[..i + 1]) == Ids(ps[..i]) + {ps[i].id}
  {
    assert ps[..i + 1] == ps[..i] + [ps[i]];
  }

  ghost predicate FlagsHeld(programs: seq<Program>, base: seq<Program>, flags: map<string, bool>) {
    && programs == Flagged(base, flags.Keys)
    && forall id :: id in flags ==> FindProgram(base, id) < |base| && flags[id] == base[FindProgram(base, id)].anyDocument
  }

  function DecisionFor(document: string, name: string, program: Program, now: int, i: nat): Decision {
    Decision(document, name, program.id, true, now + i)
  }

  /** Records the decisions in order, and what each of them replaced. */
  method Decide(c: HelperStore, document: string, candidates: seq<Candidate>, chosen: seq<Program>, now: int)
    returns (ok: bool, undo: seq<DecisionUndo>, ghost trail: seq<set<Decision>>)
    requires c.Tidy() && |chosen| == |candidates|
    modifies c`decisions
    ensures c.Tidy() && Undoes(undo, document, trail) && trail[0] == Rows(old(c.decisions)) && trail[|undo|] == Rows(c.decisions)
    ensures ok ==> Recorded(c.programs, c.decisions, document, candidates, chosen, now, |chosen|)
    ensures ok ==> AllDecidable(c.programs, candidates, chosen, |candidates|) && Counts(old(c.decisions), c.decisions, document, candidates, |candidates|)
    ensures !ok ==> !CanDecide(c.programs, old(c.decisions), document, candidates, chosen)
  {
    undo, trail := [], [Rows(c.decisions)];
    NoNames(c.decisions, document, candidates);
    for i := 0 to |candidates|
      invariant c.Tidy() && |undo| == i && Undoes(undo, document, trail) && trail[0] == Rows(old(c.decisions)) && trail[i] == Rows(c.decisions)
      invariant Recorded(c.programs, c.decisions, document, candidates, chosen, now, i)
      invariant Counts(old(c.decisions), c.decisions, document, candidates, i) && AllDecidable(c.programs, candidates, chosen, i)
    {
      var replaced := DecideOne(c, document, candidates, chosen, now, i, old(c.decisions));
      if replaced.Err? {
        return false, undo, trail;
      }
      MoreUndone(undo, document, trail, DecisionUndo(candidates[i].name, replaced.value), Rows(c.decisions));
      undo := undo + [DecisionUndo(candidates[i].name, replaced.value)];
      trail := trail + [Rows(c.decisions)];
    }
    ok := true;
  }

  method DecideOne(c: HelperStore, document: string, candidates: seq<Candidate>, chosen: seq<Program>, now: int, i: nat, ghost start: seq<Decision>)
    returns (replaced: Result<Option<Decision>>)
    requires c.Tidy() && i < |chosen| == |candidates| && Counts(start, c.decisions, document, candidates, i)
    requires Recorded(c.programs, c.decisions, document, candidates, chosen, now, i)
    modifies c`decisions
    ensures c.Tidy()
    ensures replaced.Err? ==> c.decisions == old(c.decisions) && !CanDecide(c.programs, start, document, candidates, chosen)
    ensures replaced.Ok? ==>
      && UndoesOne(DecisionUndo(candidates[i].name, replaced.value), document, Rows(old(c.decisions)), Rows(c.decisions))
      && Recorded(c.programs, c.decisions, document, candidates, chosen, now, i + 1) && Counts(start, c.decisions, document, candidates, i + 1)
      && ValidHelperName(candidates[i].name) && FindProgram(c.programs, chosen[i].id) < |c.programs|
  {
    ghost var before := c.decisions;
    var d := DecisionFor(document, candidates[i].name, chosen[i], now, i);
    replaced := c.DecideHelper(d);
    NextName(start, before, document, candidates, i);
    if replaced.Ok? {
      NextUndo(before, c.decisions, d, replaced.value);
      NextCount(start, before, c.decisions, document, candidates, i, d, replaced.value);
      NextRecord(c.programs, before, c.decisions, document, candidates, chosen, now, i);
    }
  }

  ghost predicate AllDecidable(ps: seq<Program>, candidates: seq<Candidate>, chosen: seq<Program>, k: nat)
    requires k <= |candidates| == |chosen|
  {
    forall i :: 0 <= i < k ==> ValidHelperName(candidates[i].name) && FindProgram(ps, chosen[i].id) < |ps|
  }

  /** After `k` decisions the document has a row more for each name it had none about. */
  ghost predicate Counts(start: seq<Decision>, now: seq<Decision>, document: string, candidates: seq<Candidate>, k: nat)
    requires k <= |candidates|
  {
    && |now| == |start| + |NewNames(start, document, candidates, k)| && |now| <= DECISION_CAP
    && forall name :: Find(now, document, name) < |now| <==> Find(start, document, name) < |start| || name in NewNames(start, document, candidates, k)
  }

  lemma {:induction false} NextName(start: seq<Decision>, now: seq<Decision>, document: string, candidates: seq<Candidate>, i: nat)
    requires i < |candidates| && Counts(start, now, document, candidates, i)
    ensures var name, before := candidates[i].name, NewNames(start, document, candidates, i);
      && NewNames(start, document, candidates, i + 1) == (if Find(now, document, name) < |now| then before else before + {name})
      && (Find(now, document, name) == |now| ==> name !in before)
    ensures |NewNames(start, document, candidates, i + 1)| <= |NewNames(start, document, candidates, |candidates|)|
  {
    OneMoreName(start, document, candidates, i);
    Fewer(NewNames(start, document, candidates, i + 1), NewNames(start, document, candidates, |candidates|));
  }

  lemma {:induction false} NoNames(ds: seq<Decision>, document: string, candidates: seq<Candidate>)
    requires |ds| <= DECISION_CAP
    ensures Counts(ds, ds, document, candidates, 0)
  {
    assert NewNames(ds, document, candidates, 0) == {};
  }

  lemma {:induction false} MoreUndone(undo: seq<DecisionUndo>, document: string, trail: seq<set<Decision>>, more: DecisionUndo, rows: set<Decision>)
    requires Undoes(undo, document, trail) && UndoesOne(more, document, trail[|undo|], rows)
    ensures Undoes(undo + [more], document, trail + [rows])
  {
  }

  lemma {:induction false} OneMoreName(ds: seq<Decision>, document: string, candidates: seq<Candidate>, i: nat)
    requires i < |candidates|
    ensures NewNames(ds, document, candidates, i + 1)
      == NewNames(ds, document, candidates, i) + if Find(ds, document, candidates[i].name) < |ds| then {} else {candidates[i].name}
    ensures NewNames(ds, document, candidates, i + 1) <= NewNames(ds, document, candidates, |candidates|)
  {
  }

  lemma {:induction false} NextCount(start: seq<Decision>, before: seq<Decision>, after: seq<Decision>, document: string, candidates: seq<Candidate>, i: nat,
                                     d: Decision, replaced: Option<Decision>)
    requires i < |candidates| && Counts(start, before, document, candidates, i) && About(d, document, candidates[i].name)
    requires Rows(after) == Except(Rows(before), document, d.name) + {d} && |after| == |before| + (if replaced.Some? then 0 else 1) && |after| <= DECISION_CAP
    requires replaced.Some? <==> Find(before, document, d.name) < |before|
    ensures Counts(start, after, document, candidates, i + 1)
  {
    NextName(start, before, document, candidates, i);
    FoundAfter(before, after, d);
  }

  lemma {:induction false} FoundAfter(before: seq<Decision>, after: seq<Decision>, d: Decision)
    requires Rows(after) == Except(Rows(before), d.document, d.name) + {d}
    ensures forall name :: Find(after, d.document, name) < |after| <==> name == d.name || Find(before, d.document, name) < |before|
  {
    forall name ensures Find(after, d.document, name) < |after| <==> name == d.name || Find(before, d.document, name) < |before| {
      FindInRows(after, d.document, name);
      FindInRows(before, d.document, name);
      assert d in Rows(after);
    }
  }

  lemma {:induction false} FindInRows(ds: seq<Decision>, document: string, name: string)
    ensures Find(ds, document, name) < |ds| <==> exists d :: d in Rows(ds) && About(d, document, name)
  {
    var at := Find(ds, document, name);
    if at < |ds| {
      assert ds[at] in Rows(ds);
    }
  }

  /** Of the first `k` candidates, each name's last one has its decision on record, and its program is registered. */
  ghost predicate Recorded(programs: seq<Program>, ds: seq<Decision>, document: string, candidates: seq<Candidate>, chosen: seq<Program>, now: int, k: nat)
    requires k <= |candidates| == |chosen|
  {
    forall i :: 0 <= i < k && IsLast(candidates, i, k) ==>
      && DecisionFor(document, candidates[i].name, chosen[i], now, i) in Rows(ds)
      && FindProgram(programs, chosen[i].id) < |programs|
  }

  /** No later one of the first `k` has its name. */
  predicate IsLast(candidates: seq<Candidate>, i: nat, k: nat)
    requires i < k <= |candidates|
  {
    forall j :: i < j < k ==> candidates[j].name != candidates[i].name
  }

  lemma {:induction false} NextUndo(before: seq<Decision>, after: seq<Decision>, d: Decision, replaced: Option<Decision>)
    requires TidyDecisions(before) && TidyDecisions(after) && Rows(after) == Except(Rows(before), d.document, d.name) + {d}
    requires var i := Find(before, d.document, d.name); replaced == if i < |before| then Some(before[i]) else None
    requires replaced.Some? ==> |after| == |before|
    ensures UndoesOne(DecisionUndo(d.name, replaced), d.document, Rows(before), Rows(after))
  {
    var i := Find(before, d.document, d.name);
    AddedAgain(Rows(before), d);
    if i < |before| {
      LooseCount(before);
      LooseCount(after);
      PutBack(before, i);
    } else {
      NoRowAbout(before, d.document, d.name);
    }
  }

  lemma {:induction false} AddedAgain(rows: set<Decision>, d: Decision)
    ensures Except(Except(rows, d.document, d.name) + {d}, d.document, d.name) == Except(rows, d.document, d.name)
  {
  }

  lemma {:induction false} PutBack(ds: seq<Decision>, i: nat)
    requires TidyDecisions(ds) && i < |ds|
    ensures Except(Rows(ds), ds[i].document, ds[i].name) + {ds[i]} == Rows(ds)
  {
    forall x | x in ds && About(x, ds[i].document, ds[i].name) ensures x == ds[i] {
      FindsIt(ds, x);
      FindsIt(ds, ds[i]);
    }
  }

  lemma {:induction false} NextRecord(programs: seq<Program>, before: seq<Decision>, after: seq<Decision>, document: string, candidates: seq<Candidate>, chosen: seq<Program>, now: int, i: nat)
    requires i < |candidates| == |chosen| && Recorded(programs, before, document, candidates, chosen, now, i)
    requires FindProgram(programs, chosen[i].id) < |programs|
    requires Rows(after) == Except(Rows(before), document, candidates[i].name) + {DecisionFor(document, candidates[i].name, chosen[i], now, i)}
    ensures Recorded(programs, after, document, candidates, chosen, now, i + 1)
  {
    forall k | 0 <= k < i + 1 && IsLast(candidates, k, i + 1)
      ensures DecisionFor(document, candidates[k].name, chosen[k], now, k) in Rows(after) && FindProgram(programs, chosen[k].id) < |programs|
    {
      if k < i {
        assert IsLast(candidates, k, i) && candidates[i].name != candidates[k].name;
      }
    }
  }

  /** A decision on record decides. */
  lemma {:induction false} RecordedResolves(programs: seq<Program>, ds: seq<Decision>, d: Decision)
    requires TidyDecisions(ds) && d in Rows(ds) && d.allowed && FindProgram(programs, d.program) < |programs|
    ensures Resolve(programs, ds, d.document, d.name) == Some(Resolution(true, true, Some(programs[FindProgram(programs, d.program)]), []))
  {
    FindsIt(ds, d);
  }

  /** There is one row about a name in a document. */
  lemma {:induction false} FindsIt(ds: seq<Decision>, d: Decision)
    requires TidyDecisions(ds) && d in ds
    ensures var i := Find(ds, d.document, d.name); i < |ds| && ds[i] == d
  {
  }

  /** The name resolves to the program, decided and allowed. */
  ghost predicate Grants(programs: seq<Program>, ds: seq<Decision>, document: string, name: string, id: string) {
    var r := Resolve(programs, ds, document, name);
    r.Some? && r.value.decided && r.value.allowed && r.value.program.Some? && r.value.program.value.id == id
  }

  lemma {:induction false} AllGranted(programs: seq<Program>, ds: seq<Decision>, document: string, candidates: seq<Candidate>, chosen: seq<Program>, now: int)
    requires TidyDecisions(ds) && |candidates| == |chosen| && Recorded(programs, ds, document, candidates, chosen, now, |candidates|)
    ensures forall i :: 0 <= i < |candidates| && IsLast(candidates, i, |candidates|) ==> Grants(programs, ds, document, candidates[i].name, chosen[i].id)
  {
    forall i | 0 <= i < |candidates| && IsLast(candidates, i, |candidates|) ensures Grants(programs, ds, document, candidates[i].name, chosen[i].id) {
      RecordedResolves(programs, ds, DecisionFor(document, candidates[i].name, chosen[i], now, i));
    }
  }

  /**
   saveHelperDecisionSetLocked. On failure nothing has changed; on success every name resolves to the
   program chosen for it, by its last candidate when several share the name.
   */
  method SaveDecisionSet(c: HelperStore, world: World, document: string, candidates: seq<Candidate>, anyDocument: bool)
    returns (ok: bool, chosen: seq<Program>, ghost added: seq<Program>)
    requires c.Tidy() && DrawsNew(world)
    modifies c
    ensures DrawsApart(world, candidates) ==> (ok <==> world.saves && CanSave(world, old(c.programs), old(c.decisions), document, candidates))
    ensures !ok ==> c.programs == old(c.programs) && c.decisions == old(c.decisions)
    ensures ok ==> world.saves && c.Tidy() && |chosen| == |candidates|
    ensures ok ==> forall k :: 0 <= k < |chosen| ==> IsChoice(world, candidates[k], chosen[k], added)
    ensures ok ==> c.programs == Flagged(old(c.programs) + added, if anyDocument then Ids(chosen) else {})
    ensures ok ==> forall k :: 0 <= k < |candidates| && IsLast(candidates, k, |candidates|) ==>
      Grants(c.programs, c.decisions, document, candidates[k].name, chosen[k].id)
  {
    ghost var startPrograms, startDecisions := c.programs, c.decisions;
    var registered, flags, undo;
    ghost var trail;
    ok, chosen, registered, flags, undo, trail := TakeSteps(c, world, document, candidates, anyDocument);
    added := registered;
    if !ok || !world.saves {
      RollBack(c, registered, flags, undo, document, startPrograms, startDecisions, trail);
      return false, chosen, added;
    }
    AllGranted(c.programs, c.decisions, document, candidates, chosen, world.clock);
  }

  /** The three steps, with all a rollback needs from wherever they ended. */
  method TakeSteps(c: HelperStore, world: World, document: string, candidates: seq<Candidate>, anyDocument: bool)
    returns (ok: bool, chosen: seq<Program>, added: seq<Program>, flags: map<string, bool>, undo: seq<DecisionUndo>, ghost trail: seq<set<Decision>>)
    requires c.Tidy() && DrawsNew(world)
    modifies c
    ensures CanRollBack(c, old(c.programs), old(c.decisions), added, flags, undo, document, trail)
    ensures DrawsApart(world, candidates) ==> (ok <==> CanSave(world, old(c.programs), old(c.decisions), document, candidates))
    ensures ok ==> c.Tidy() && |chosen| == |candidates| && forall k :: 0 <= k < |chosen| ==> IsChoice(world, candidates[k], chosen[k], added)
    ensures ok ==> c.programs == Flagged(old(c.programs) + added, if anyDocument then Ids(chosen) else {})
    ensures ok ==> Recorded(c.programs, c.decisions, document, candidates, chosen, world.clock, |candidates|)
  {
    flags, undo, trail := map[], [], [Rows(c.decisions)];
    ok, chosen, added := Register(c, world, candidates);
    ghost var base := c.programs;
    NoFlags(base);
    ChosenForAll(world, old(c.programs), candidates, chosen, added);
    if !ok {
      return;
    }
    if anyDocument {
      ok, flags := AllowAny(c, chosen, base);
    }
    FlaggedTidy(base, flags.Keys);
    SavesExactly(world, old(c.programs), added, flags.Keys, old(c.decisions), document, candidates, chosen);
    if ok {
      ok, undo, trail := Decide(c, document, candidates, chosen, world.clock);
    }
  }

  /** The steps go through just when the whole can be saved. */
  lemma {:induction false} SavesExactly(world: World, start: seq<Program>, added: seq<Program>, flagged: set<string>, ds: seq<Decision>,
                                        document: string, candidates: seq<Candidate>, chosen: seq<Program>)
    requires |chosen| == |candidates| && Drawn(world, added) && CanRegister(world, start, candidates)
    requires forall k :: 0 <= k < |chosen| ==> IsChoice(world, candidates[k], chosen[k], added)
    ensures DrawsApart(world, candidates) ==>
      (CanDecide(Flagged(start + added, flagged), ds, document, candidates, chosen) <==> CanSave(world, start, ds, document, candidates))
    ensures (exists p :: p in chosen && FindProgram(start + added, p.id) == |start + added|) ==>
      !CanDecide(Flagged(start + added, flagged), ds, document, candidates, chosen)
  {
    var now := Flagged(start + added, flagged);
    forall k | DrawsApart(world, candidates) && 0 <= k < |chosen|
      ensures FindProgram(now, chosen[k].id) < |now| <==>
        (Known(world, candidates[k]).Some? ==> FindProgram(start, Known(world, candidates[k]).value.id) < |start|)
    {
      ChosenRegistered(world, start, added, flagged, candidates, chosen, k);
    }
  }

  lemma {:induction false} ChosenRegistered(world: World, start: seq<Program>, added: seq<Program>, flagged: set<string>, candidates: seq<Candidate>,
                                            chosen: seq<Program>, k: nat)
    requires k < |candidates| == |chosen| && Drawn(world, added) && DrawsApart(world, candidates) && IsChoice(world, candidates[k], chosen[k], added)
    ensures var now, known := Flagged(start + added, flagged), Known(world, candidates[k]);
      FindProgram(now, chosen[k].id) < |now| <==> (known.Some? ==> FindProgram(start, known.value.id) < |start|)
  {
    var base, id := start + added, chosen[k].id;
    FlaggedFinds(base, flagged, id);
    var at, first := FindProgram(base, id), FindProgram(start, id);
    if first < |start| {
      assert base[first].id == id;
    }
    match Known(world, candidates[k])
    case Some(p) =>
      forall a | |start| <= a < |base| ensures base[a].id != id {
        assert base[a] in added;
      }
    case None =>
      var i :| 0 <= i < |added| && added[i] == chosen[k];
      assert base[|start| + i].id == id;
  }

  // ----- the tray's changes to one program -----

  datatype Choice = ToggleAnyDocument | ForgetDecisions | Remove | Leave

  /**
   manageHelperProgram: the change chosen for one registered program, taken back when it cannot be saved.
   What is taken back leaves both lists element for element as they were.
   */
  method ManageProgram(c: HelperStore, id: string, choice: Choice, saves: bool)
    requires c.Tidy()
    modifies c
    ensures c.Tidy()
    ensures !saves ==> c.programs == old(c.programs) && c.decisions == old(c.decisions)
    ensures !choice.ForgetDecisions? ==> c.decisions == old(c.decisions)
    ensures choice.ForgetDecisions? || choice.Leave? ==> c.programs == old(c.programs)
    ensures saves && choice.ForgetDecisions? ==> Rows(c.decisions) == Others(Rows(old(c.decisions)), id)
    ensures saves ==> var i := FindProgram(old(c.programs), id);
      && (choice.Remove? ==> c.programs == if i < |old(c.programs)| then Drop(old(c.programs), i) else old(c.programs))
      && (choice.ToggleAnyDocument? ==> c.programs == if i < |old(c.programs)| then Toggled(old(c.programs), i) else old(c.programs))
  {
    match choice {
      case ToggleAnyDocument => ToggleAny(c, id, saves);
      case ForgetDecisions => ForgetOf(c, id, saves);
      case Remove => RemoveOf(c, id, saves);
      case Leave =>
    }
  }

  function Toggled(ps: seq<Program>, i: nat): seq<Program>
    requires i < |ps|
  {
    ps[i := ps[i].(anyDocument := !ps[i].anyDocument)]
  }

  method ToggleAny(c: HelperStore, id: string, saves: bool)
    requires c.Tidy()
    modifies c`programs
    ensures c.Tidy()
    ensures var i := FindProgram(old(c.programs), id);
      c.programs == if saves && i < |old(c.programs)| then Toggled(old(c.programs), i) else old(c.programs)
  {
    var i := FindProgram(c.programs, id);
    if i == |c.programs| {
      return;
    }
    ToggledTidy(c.programs, i);
    var previous := c.SetHelperAnyDocument(id, !c.programs[i].anyDocument);
    if !saves {
      previous := c.SetHelperAnyDocument(id, previous.value);
    }
  }

  lemma {:induction false} ToggledTidy(ps: seq<Program>, i: nat)
    requires TidyPrograms(ps) && i < |ps|
    ensures TidyPrograms(Toggled(ps, i)) && FindProgram(Toggled(ps, i), ps[i].id) == i
  {
    assert forall k :: 0 <= k < |ps| ==> Toggled(ps, i)[k].id == ps[k].id && Toggled(ps, i)[k].addedAt == ps[k].addedAt;
    forall p | p in Toggled(ps, i) ensures p.id != "" && ValidHelperName(p.name) {
      var k :| 0 <= k < |ps| && Toggled(ps, i)[k] == p;
      assert ps[k] in ps;
    }
  }

  method ForgetOf(c: HelperStore, id: string, saves: bool)
    requires c.Tidy()
    modifies c`decisions
    ensures c.Tidy()
    ensures if saves then Rows(c.decisions) == Others(Rows(old(c.decisions)), id) else c.decisions == old(c.decisions)
  {
    var removed := c.ForgetHelperProgramDecisions(id);
    if removed != [] && !saves {
      LooseApart(old(c.decisions));
      LooseApart(removed);
      TakenComeBack(Rows(old(c.decisions)), Rows(c.decisions), removed);
      var restored := c.RestoreHelperDecisions(removed);
      SameRows(c.decisions, old(c.decisions));
    }
  }

  method RemoveOf(c: HelperStore, id: string, saves: bool)
    requires c.Tidy()
    modifies c`programs
    ensures c.Tidy()
    ensures var i := FindProgram(old(c.programs), id);
      c.programs == if saves && i < |old(c.programs)| then Drop(old(c.programs), i) else old(c.programs)
  {
    ghost var i := FindProgram(c.programs, id);
    var removed := c.RemoveHelperProgram(id);
    if removed.Some? {
      DropProgramTidy(old(c.programs), i);
      if !saves {
        DropProgram(old(c.programs), i);
        var restored := c.RestoreHelperProgram(removed.value);
        SamePrograms(c.programs, old(c.programs));
      }
    }
  }
}
