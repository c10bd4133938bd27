/** The cooperative round-robin scheduler: it stops within its budget, keeps every actor's
    program order, treats actors fairly, and stops early only when nothing can move. */
module Scheduler {
  import opened Names
  import opened Finite
  import Mailbox

  datatype Stmt = Stmt(text: string)

  // env names the environment the actor's statements run in.
  datatype Actor = Actor(mailbox: seq<Mailbox.Envelope>, body: seq<Stmt>, env: nat, finished: bool, parked: bool)

  // The part of the interpreter a statement may see; `rest` is everything else it may touch.
  datatype World = World(actors: map<nat, Actor>, executing: Option<(nat, Actor)>, environment: nat, rest: int)

  type Execute = (Stmt, World) -> World

  /** What a statement may do: it may send, park, unpark and spawn, but it edits no body,
      finishes and removes no actor, and spawns under new ids. */
  ghost predicate Behaves(exec: Execute) {
    forall s: Stmt, w: World {:trigger exec(s, w)} | w.executing.Some? && w.executing.value.0 !in w.actors ::
      Permitted(w, exec(s, w))
  }

  ghost predicate Permitted(w: World, w': World) {
    && w.executing.Some? && w'.executing.Some?
    && w'.executing.value.0 == w.executing.value.0 && w'.executing.value.0 !in w'.actors
    && SameProgram(w.executing.value.1, w'.executing.value.1)
    && Others(w.actors, w'.actors)
  }

  ghost predicate SameProgram(a: Actor, b: Actor) {
    a.body == b.body && a.finished == b.finished
  }

  // Old actors keep their programs; new ones are not finished.
  ghost predicate Others(before: map<nat, Actor>, after: map<nat, Actor>) {
    && (forall a | a in before :: a in after && SameProgram(before[a], after[a]))
    && (forall a | a in after && a !in before :: !after[a].finished)
  }

  /** Among what it may do: nothing, parking its actor, changing the environment, sending to another
      actor, unparking it, and spawning one. */
  lemma MayAct(w: World, env: nat, other: nat, letter: Mailbox.Envelope, child: Actor)
    requires w.executing.Some? && w.executing.value.0 !in w.actors && other in w.actors
    ensures var (id, a), b := w.executing.value, w.actors[other];
      && Permitted(w, w)
      && Permitted(w, w.(executing := Some((id, a.(parked := true)))))
      && Permitted(w, w.(environment := env))
      && Permitted(w, w.(actors := w.actors[other := b.(mailbox := b.mailbox + [letter])]))
      && Permitted(w, w.(actors := w.actors[other := b.(parked := false)]))
      && (!child.finished ==> forall n: nat | n !in w.actors && n != id ::
        Permitted(w, w.(actors := w.actors[n := child])))
  {
  }

  // ----- One actor's turn -----

  datatype Did = Parked | Idle | Waiting | Ran(stmt: Stmt) | Retried(stmt: Stmt)

  // The statement at the head of an actor's body, run in the actor's own environment while
  // the actor itself is out of the table.
  function AfterStatement(w: World, id: nat, exec: Execute): World
    requires id in w.actors && w.actors[id].body != []
  {
    var a := w.actors[id];
    exec(a.body[0], World(w.actors - {id}, Some((id, a.(body := a.body[1..]))), a.env, w.rest))
  }

  // The actor as it goes back into the table: a statement that parked it is put back to be
  // tried again in the environment it started from.
  function PutBack(was: Actor, ran: Actor, env: nat): Actor
    requires was.body != []
  {
    var b := if ran.parked then ran.(body := [was.body[0]] + ran.body, env := was.env) else ran.(env := env);
    if b.body == [] && b.mailbox == [] then b.(finished := true) else b
  }

  // An actor that is not parked and has a statement left.
  predicate Runnable(a: Actor) {
    !a.parked && a.body != []
  }

  /** The interpreter after a turn of an actor. */
  function Turned(w: World, id: nat, exec: Execute): World
    requires id in w.actors
  {
    var a := w.actors[id];
    if !Runnable(a) then w
    else
      var after := AfterStatement(w, id, exec);
      var actors := match after.executing case Some(e) => after.actors[id := PutBack(a, e.1, after.environment)]
        case None => after.actors;
      World(actors, None, w.environment, after.rest)
  }

  /** What such a turn was. */
  function DidOf(w: World, id: nat, exec: Execute): Did
    requires id in w.actors
  {
    var a := w.actors[id];
    if a.parked then Parked
    else if a.body == [] then if a.mailbox == [] then Idle else Waiting
    else
      match AfterStatement(w, id, exec).executing
      case Some(e) => if e.1.parked then Retried(a.body[0]) else Ran(a.body[0])
      case None => Ran(a.body[0])
  }

  /** What every turn amounts to, whatever the statement does: nothing for a parked actor or
      one with no statement left; otherwise its next statement is gone, or back if it parked
      the actor. */
  ghost predicate Took(before: map<nat, Actor>, after: map<nat, Actor>, id: nat, did: Did) {
    id in before && id in after && Others(before - {id}, after - {id}) &&
    var a, b := before[id], after[id];
    match did
    case Parked => a.parked && after == before
    case Idle => !a.parked && a.body == [] && a.mailbox == [] && after == before
    case Waiting => !a.parked && a.body == [] && a.mailbox != [] && after == before
    case Ran(s) =>
      !a.parked && a.body == [s] + b.body && !b.parked
        && (b.finished <==> a.finished || (b.body == [] && b.mailbox == []))
    case Retried(s) =>
      !a.parked && a.body != [] && a.body[0] == s && b.body == a.body && b.parked && b.finished == a.finished
        && b.env == a.env
  }

  lemma TurnedTook(w: World, id: nat, exec: Execute)
    requires Behaves(exec) && w.executing.None? && id in w.actors
    ensures Took(w.actors, Turned(w, id, exec).actors, id, DidOf(w, id, exec))
    ensures Turned(w, id, exec).executing.None? && Turned(w, id, exec).environment == w.environment
    ensures Runnable(w.actors[id]) ==> AfterStatement(w, id, exec).executing.Some?
  {
    var a := w.actors[id];
    if Runnable(a) {
      var out := World(w.actors - {id}, Some((id, a.(body := a.body[1..]))), a.env, w.rest);
      var after := exec(a.body[0], out);
      assert Permitted(out, after);
      var after' := Turned(w, id, exec).actors;
      assert after' - {id} == after.actors && w.actors - {id} == out.actors;
      assert a.body == [a.body[0]] + a.body[1..];
    }
  }

  /** The statement of a turn is run while its actor is out of the table, with the rest of the actor's
      body, in the actor's own environment. Afterwards the actor has the environment the statement
      left, or its old one if the statement parked it; the interpreter has its own back. */
  lemma RunsInItsEnvironment(w: World, id: nat, exec: Execute)
    requires Behaves(exec) && w.executing.None? && id in w.actors && !w.actors[id].parked && w.actors[id].body != []
    ensures var a, w' := w.actors[id], Turned(w, id, exec);
      var after := exec(a.body[0], World(w.actors - {id}, Some((id, a.(body := a.body[1..]))), a.env, w.rest));
      && after.executing.Some? && id in w'.actors
      && w'.rest == after.rest && w'.environment == w.environment
      && (forall b | b != id :: b in w'.actors <==> b in after.actors)
      && (forall b | b != id && b in after.actors :: w'.actors[b] == after.actors[b])
      && w'.actors[id].mailbox == after.executing.value.1.mailbox
      && w'.actors[id].env == (if after.executing.value.1.parked then a.env else after.environment)
  {
    TurnedTook(w, id, exec);
  }

  // The scheduler's turns: which pass, what the actor looked like, what was done.
  datatype Turn = Turn(pass: nat, id: nat, seen: Actor, did: Did)

  // The statements an actor has completed, in order.
  function Completed(turns: seq<Turn>, id: nat): seq<Stmt> {
    if turns == [] then []
    else
      var t := turns[|turns| - 1];
      Completed(turns[..|turns| - 1], id) + (if t.id == id && t.did.Ran? then [t.did.stmt] else [])
  }

  /** They are the statements of the turns that ran one for it, picked by position. */
  lemma {:induction false} CompletedByPosition(turns: seq<Turn>, id: nat) returns (at: seq<nat>)
    ensures Ascending(at) && forall i: nat :: i in at <==> i < |turns| && turns[i].id == id && turns[i].did.Ran?
    ensures |Completed(turns, id)| == |at|
    ensures forall k | 0 <= k < |at| :: at[k] < |turns| && turns[at[k]].did == Ran(Completed(turns, id)[k])
  {
    at := [];
    if turns != [] {
      var front := turns[..|turns| - 1];
      at := CompletedByPosition(front, id);
      if turns[|front|].id == id && turns[|front|].did.Ran? {
        OneMore(at, |front|);
        at := at + [|front|];
      }
    }
  }

  // The turns that count against the budget.
  function Spent(turns: seq<Turn>): nat {
    if turns == [] then 0
    else
      var t := turns[|turns| - 1];
      Spent(turns[..|turns| - 1]) + (if t.did.Parked? || t.did.Idle? then 0 else 1)
  }

  /** Turns that found their actor parked or idle are free; every other turn costs one step. */
  lemma {:induction false} SpentByPosition(turns: seq<Turn>) returns (at: seq<nat>)
    ensures Ascending(at) && forall i: nat :: i in at <==> i < |turns| && turns[i].did != Parked && turns[i].did != Idle
    ensures Spent(turns) == |at|
  {
    at := [];
    if turns != [] {
      var front := turns[..|turns| - 1];
      at := SpentByPosition(front);
      if turns[|front|].did != Parked && turns[|front|].did != Idle {
        OneMore(at, |front|);
        at := at + [|front|];
      }
    }
  }

  // Who had a turn in a pass, in order.
  function Visited(turns: seq<Turn>, pass: nat): seq<nat> {
    if turns == [] then []
    else
      var t := turns[|turns| - 1];
      Visited(turns[..|turns| - 1], pass) + (if t.pass == pass then [t.id] else [])
  }

  /** The turns are real: each found the interpreter as the one before left it, saw the actor
      as it was, and left what running the actor's next statement leaves. */
  ghost predicate Executed(worlds: seq<World>, turns: seq<Turn>, exec: Execute) {
    |worlds| == |turns| + 1 &&
    forall i | 0 <= i < |turns| :: TurnIs(worlds[i], worlds[i + 1], turns[i], exec)
  }

  ghost predicate TurnIs(w: World, w': World, t: Turn, exec: Execute) {
    && t.id in w.actors && t.seen == w.actors[t.id] && !t.seen.finished
    && t.did == DidOf(w, t.id, exec) && w' == Turned(w, t.id, exec)
  }

  // Passes follow one another, and whoever had no turn in a pass was finished when the next
  // one began.
  ghost predicate Fair(start: map<nat, Actor>, worlds: seq<World>, turns: seq<Turn>) {
    && |worlds| > |turns|
    && (forall i, j | 0 <= i < j < |turns| :: turns[i].pass <= turns[j].pass)
    && (forall i, p: nat, a | 0 <= i < |turns| && p < turns[i].pass && a in start ::
          a in Visited(turns, p) || (a in worlds[i].actors && worlds[i].actors[a].finished))
  }

  lemma ExecutedMore(worlds: seq<World>, turns: seq<Turn>, exec: Execute, w': World, t: Turn)
    requires Executed(worlds, turns, exec) && TurnIs(worlds[|turns|], w', t, exec)
    ensures Executed(worlds + [w'], turns + [t], exec)
  {
    hide TurnIs;
  }

  lemma FairMore(start: map<nat, Actor>, worlds: seq<World>, turns: seq<Turn>, w': World, t: Turn)
    requires Fair(start, worlds, turns) && |worlds| == |turns| + 1
      && PastPasses(start, worlds[|turns|].actors, turns, t.pass)
    ensures Fair(start, worlds + [w'], turns + [t])
  {
    var turns' := turns + [t];
    assert turns'[..|turns|] == turns;
    forall i, p: nat, a | 0 <= i < |turns'| && p < turns'[i].pass && a in start
      ensures a in Visited(turns', p) || (a in (worlds + [w'])[i].actors && (worlds + [w'])[i].actors[a].finished)
    {
      hide Apt, Ascending;
      assert a in Visited(turns, p) ==> a in Visited(turns', p);
    }
  }

  // Nothing the scheduler could do for it.
  ghost predicate Resting(actors: map<nat, Actor>, id: nat) {
    id in actors && (actors[id].parked || actors[id].body == [])
  }

  // ----- What holds between turns -----

  // Each turn treats the actor as it found it.
  ghost predicate Apt(t: Turn) {
    match t.did
    case Parked => t.seen.parked
    case Idle => !t.seen.parked && t.seen.body == [] && t.seen.mailbox == []
    case Waiting => !t.seen.parked && t.seen.body == [] && t.seen.mailbox != []
    case Ran(s) => !t.seen.parked && t.seen.body != [] && s == t.seen.body[0]
    case Retried(s) => !t.seen.parked && t.seen.body != [] && s == t.seen.body[0]
  }

  // Completed statements and what is left make up the original body; a finished actor's
  // body is done unless it was finished to begin with.
  ghost predicate Conserved(start: map<nat, Actor>, actors: map<nat, Actor>, turns: seq<Turn>) {
    && (forall a | a in start :: a in actors && Completed(turns, a) + actors[a].body == start[a].body)
    && (forall a | a in start && actors[a].finished ::
      if start[a].finished then Completed(turns, a) == [] else actors[a].body == [])
    && (forall a | a in start && start[a].finished :: actors[a].finished)
    && (forall a | a in actors && a !in start :: !actors[a].finished)
    && (forall a: nat | a !in start :: Completed(turns, a) == [])
  }

  // The list, the turns of this pass and the progress flag belong together.
  ghost predicate InPass(start: map<nat, Actor>, actors: map<nat, Actor>, turns: seq<Turn>, ids: seq<nat>, idx: nat,
      pass: nat, progress: bool) {
    && Ascending(ids) && idx <= |ids| && Visited(turns, pass) == ids[..idx]
    && (forall a | a in ids :: a in start)
    && (forall a | a in start :: a in ids || (a in actors && actors[a].finished))
    && (!progress ==> forall k | 0 <= k < idx :: Resting(actors, ids[k]))
  }

  // Earlier passes gave a turn, in id order, to every actor that is not finished.
  ghost predicate PastPasses(start: map<nat, Actor>, actors: map<nat, Actor>, turns: seq<Turn>, pass: nat) {
    && (forall i | 0 <= i < |turns| :: turns[i].pass <= pass && Apt(turns[i]) && turns[i].id in start)
    && (forall p: nat | p <= pass :: Ascending(Visited(turns, p)))
    && (forall p: nat, a | p < pass && a in start :: a in Visited(turns, p) || (a in actors && actors[a].finished))
  }

  ghost predicate Going(start: map<nat, Actor>, actors: map<nat, Actor>, turns: seq<Turn>, ids: seq<nat>, idx: nat,
      pass: nat, progress: bool) {
    Conserved(start, actors, turns) && InPass(start, actors, turns, ids, idx, pass, progress)
      && PastPasses(start, actors, turns, pass)
  }

  lemma LaterPassEmpty(turns: seq<Turn>, pass: nat, q: nat)
    requires (forall i | 0 <= i < |turns| :: turns[i].pass <= pass) && pass < q
    ensures Visited(turns, q) == []
  {
  }

  lemma Starts(start: map<nat, Actor>, ids: seq<nat>)
    requires Ascending(ids) && forall a :: a in ids <==> a in start
    ensures Going(start, start, [], ids, 0, 0, false)
  {
  }

  // A full pass with progress: start the next one.
  lemma NextPass(start: map<nat, Actor>, actors: map<nat, Actor>, turns: seq<Turn>, ids: seq<nat>, idx: nat, pass: nat,
      progress: bool)
    requires Going(start, actors, turns, ids, idx, pass, progress) && idx == |ids|
    ensures Going(start, actors, turns, ids, 0, pass + 1, false)
  {
    LaterPassEmpty(turns, pass, pass + 1);
    PassDone(start, actors, turns, ids, pass, progress);
    hide Conserved, Visited, Ascending, PastPasses;
  }

  lemma PassDone(start: map<nat, Actor>, actors: map<nat, Actor>, turns: seq<Turn>, ids: seq<nat>, pass: nat,
      progress: bool)
    requires InPass(start, actors, turns, ids, |ids|, pass, progress) && PastPasses(start, actors, turns, pass)
    requires Visited(turns, pass + 1) == []
    ensures PastPasses(start, actors, turns, pass + 1)
  {
    hide Apt, Resting, Visited;
    forall p: nat, a | p < pass + 1 && a in start
      ensures a in Visited(turns, p) || (a in actors && actors[a].finished)
    {
      hide Ascending;
      if p == pass {
        assert Visited(turns, p) == ids;
      }
    }
  }

  // A finished actor leaves the list.
  lemma Dropped(start: map<nat, Actor>, actors: map<nat, Actor>, turns: seq<Turn>, ids: seq<nat>, idx: nat, pass: nat,
      progress: bool)
    requires Going(start, actors, turns, ids, idx, pass, progress) && idx < |ids| && ids[idx] in actors
      && actors[ids[idx]].finished
    ensures Going(start, actors, turns, ids[..idx] + ids[idx + 1..], idx, pass, progress)
  {
    hide Conserved, PastPasses, Visited;
    var ids' := ids[..idx] + ids[idx + 1..];
    assert ids == ids[..idx] + [ids[idx]] + ids[idx + 1..];
    assert ids'[..idx] == ids[..idx];
  }

  lemma TurnCompleted(turns: seq<Turn>, t: Turn, a: nat)
    ensures Completed(turns + [t], a) == Completed(turns, a) + (if t.id == a && t.did.Ran? then [t.did.stmt] else [])
  {
    assert (turns + [t])[..|turns|] == turns;
  }

  // The actor whose turn it is.
  lemma TurnConservesOne(before: map<nat, Actor>, after: map<nat, Actor>, id: nat, did: Did, done: seq<Stmt>,
      whole: seq<Stmt>)
    requires Took(before, after, id, did) && done + before[id].body == whole
    ensures id in after && (done + if did.Ran? then [did.stmt] else []) + after[id].body == whole
    ensures before[id].finished ==> after[id].finished
    ensures !before[id].finished && after[id].finished ==> after[id].body == []
  {
    hide Others;
  }

  // Everybody else.
  lemma TurnConservesOthers(before: map<nat, Actor>, after: map<nat, Actor>, id: nat, did: Did)
    requires Took(before, after, id, did)
    ensures forall a | a in before && a != id :: a in after && SameProgram(before[a], after[a])
    ensures forall a | a in after && a !in before :: !after[a].finished
  {
    forall a | a in before && a != id
      ensures a in after && SameProgram(before[a], after[a])
    {
      assert a in before - {id};
    }
    forall a | a in after && a !in before
      ensures !after[a].finished
    {
      assert a in after - {id} && a !in before - {id};
    }
  }

  lemma TurnConserves(start: map<nat, Actor>, before: map<nat, Actor>, after: map<nat, Actor>, turns: seq<Turn>,
      t: Turn)
    requires Conserved(start, before, turns) && t.id in start && Took(before, after, t.id, t.did)
      && !before[t.id].finished
    ensures Conserved(start, after, turns + [t])
  {
    forall a
      ensures Completed(turns + [t], a) == Completed(turns, a) + (if t.id == a && t.did.Ran? then [t.did.stmt] else [])
    {
      TurnCompleted(turns, t, a);
    }
    hide Completed;
    TurnConservesOthers(before, after, t.id, t.did);
    forall a | a in start
      ensures a in after && Completed(turns + [t], a) + after[a].body == start[a].body
      ensures after[a].finished ==> if start[a].finished then Completed(turns + [t], a) == [] else after[a].body == []
      ensures start[a].finished ==> after[a].finished
    {
      if a == t.id {
        TurnConservesOne(before, after, t.id, t.did, Completed(turns, t.id), start[t.id].body);
      }
      hide Took;
    }
    hide Took;
    forall a | a in after && a !in start
      ensures !after[a].finished
    {
    }
  }

  lemma TurnInPass(start: map<nat, Actor>, before: map<nat, Actor>, after: map<nat, Actor>, turns: seq<Turn>,
      ids: seq<nat>,
                   idx: nat, pass: nat, progress: bool, t: Turn)
    requires InPass(start, before, turns, ids, idx, pass, progress) && idx < |ids| && t.id == ids[idx] && t.pass == pass
    requires Took(before, after, t.id, t.did)
    ensures InPass(start, after, turns + [t], ids, idx + 1, pass, progress || t.did.Ran? || t.did.Retried?)
  {
    assert (turns + [t])[..|turns|] == turns;
    assert ids[..idx + 1] == ids[..idx] + [ids[idx]];
    hide Visited;
    forall a | a in before && before[a].finished
      ensures a in after && after[a].finished
    {
      assert a != t.id ==> a in before - {t.id};
    }
  }

  lemma TurnPastPasses(start: map<nat, Actor>, before: map<nat, Actor>, after: map<nat, Actor>, turns: seq<Turn>,
      ids: seq<nat>,
                       idx: nat, pass: nat, t: Turn)
    requires PastPasses(start, before, turns, pass) && t.pass == pass && t.id in start
      && Took(before, after, t.id, t.did)
    requires t.seen == before[t.id] && idx < |ids| && Ascending(ids) && t.id == ids[idx]
      && Visited(turns, pass) == ids[..idx]
    ensures PastPasses(start, after, turns + [t], pass)
  {
    hide Took, Visited, Ascending, Apt;
    var turns' := turns + [t];
    forall p: nat
      ensures Visited(turns', p) == if p == pass then Visited(turns, p) + [t.id] else Visited(turns, p)
    {
      VisitedMore(turns, t, p);
    }
    AscendingUpTo(ids, idx);
    forall p: nat, a | p < pass && a in start
      ensures a in Visited(turns', p) || (a in after && after[a].finished)
    {
      assert a in Visited(turns, p) || (a in before && before[a].finished);
      FinishedStays(before, after, t.id, t.did, a);
    }
    TookIsApt(before, after, t);
    assert forall i | 0 <= i < |turns| :: turns'[i] == turns[i];
  }

  lemma VisitedMore(turns: seq<Turn>, t: Turn, p: nat)
    ensures Visited(turns + [t], p) == if p == t.pass then Visited(turns, p) + [t.id] else Visited(turns, p)
  {
    assert (turns + [t])[..|turns|] == turns;
  }

  lemma AscendingUpTo(ids: seq<nat>, idx: nat)
    requires Ascending(ids) && idx < |ids|
    ensures Ascending(ids[..idx] + [ids[idx]])
  {
    assert ids[..idx + 1] == ids[..idx] + [ids[idx]];
  }

  lemma TookIsApt(before: map<nat, Actor>, after: map<nat, Actor>, t: Turn)
    requires Took(before, after, t.id, t.did) && t.seen == before[t.id]
    ensures Apt(t)
  {
  }

  lemma FinishedStays(before: map<nat, Actor>, after: map<nat, Actor>, id: nat, did: Did, a: nat)
    requires Took(before, after, id, did)
    ensures a in before && before[a].finished ==> a in after && after[a].finished
  {
    assert a != id && a in before ==> a in before - {id};
  }

  /** A turn keeps everything. */
  lemma TurnKeeps(start: map<nat, Actor>, before: map<nat, Actor>, after: map<nat, Actor>, turns: seq<Turn>,
      ids: seq<nat>,
                  idx: nat, pass: nat, progress: bool, t: Turn)
    requires Going(start, before, turns, ids, idx, pass, progress) && idx < |ids| && t.id == ids[idx] && t.pass == pass
    requires Took(before, after, t.id, t.did) && t.seen == before[t.id] && !before[t.id].finished
    ensures Going(start, after, turns + [t], ids, idx + 1, pass, progress || t.did.Ran? || t.did.Retried?)
    ensures Spent(turns + [t]) == Spent(turns) + (if t.did.Parked? || t.did.Idle? then 0 else 1)
  {
    TurnConserves(start, before, after, turns, t);
    TurnInPass(start, before, after, turns, ids, idx, pass, progress, t);
    TurnPastPasses(start, before, after, turns, ids, idx, pass, t);
    assert (turns + [t])[..|turns|] == turns;
    hide Conserved, InPass, PastPasses, Took;
  }

  // ----- The interpreter -----

  class Interpreter {
    var actors: map<nat, Actor>
    var executing: Option<(nat, Actor)>
    var environment: nat
    var rest: int

    ghost function W(): World
      reads this
    {
      World(actors, executing, environment, rest)
    }

    method Step(stmt: Stmt, exec: Execute)
      modifies this
      ensures W() == exec(stmt, old(W()))
    {
      var w := exec(stmt, World(actors, executing, environment, rest));
      actors, executing, environment, rest := w.actors, w.executing, w.environment, w.rest;
    }

    /** One actor's turn. */
    method Visit(id: nat, exec: Execute) returns (did: Did)
      requires Behaves(exec) && executing.None? && id in actors
      modifies this
      ensures W() == Turned(old(W()), id, exec) && did == DidOf(old(W()), id, exec)
    {
      ghost var before := W();
      TurnedTook(before, id, exec);
      hide Behaves, Took;
      var actor := actors[id];
      actors := actors - {id};
      executing := Some((id, actor));
      if actor.parked {
        executing := None;
        actors := actors[id := actor];
        assert actors == before.actors;
        return Parked;
      }
      if actor.body == [] && actor.mailbox == [] {
        executing := None;
        actors := actors[id := actor];
        assert actors == before.actors;
        return Idle;
      }
      if actor.body != [] {
        var stmt := actor.body[0];
        executing := Some((id, actor.(body := actor.body[1..])));
        var previous := environment;
        environment := actor.env;
        Step(stmt, exec);
        assert W() == AfterStatement(before, id, exec);
        var act := executing.value.1;
        did := Ran(stmt);
        if act.parked {
          did := Retried(stmt);
          act := act.(body := [stmt] + act.body);
          environment := actor.env;
        }
        act := act.(env := environment);
        environment := previous;
        if act.body == [] && act.mailbox == [] {
          act := act.(finished := true);
        }
        executing := None;
        actors := actors[id := act];
      } else {
        did := Waiting;
        executing := None;
        actors := actors[id := actor];
        assert actors == before.actors;
      }
    }

    /** The whole run: the turns taken, the interpreter before each and after the last, and
        whether it stopped on a pass that could move nothing. At the end the finished actors
        are taken out. */
    method RunActorsRoundRobin(maxSteps: nat, exec: Execute)
        returns (ghost turns: seq<Turn>, ghost worlds: seq<World>, ghost quiet: bool)
      requires Behaves(exec) && executing.None?
      modifies this
      ensures Executed(worlds, turns, exec) && worlds[0] == old(W()) && Fair(old(actors), worlds, turns)
      ensures Outcome(old(actors), worlds[|turns|].actors, turns, quiet, maxSteps)
      ensures W() == worlds[|turns|].(actors := Unfinished(worlds[|turns|].actors))
      ensures forall a :: a in actors <==> a in worlds[|turns|].actors && !worlds[|turns|].actors[a].finished
      ensures executing.None? && environment == old(environment)
    {
      hide Going, Took, Behaves, Spent, Outcome, Ascending, Executed, Fair, TurnIs, Turned, DidOf;
      assert Spent([]) == 0 by { NothingSpent(); }
      ghost var start := actors;
      var ids := Sorted(actors.Keys);
      var steps, idx, progress := 0, 0, false;
      ghost var pass := 0;
      turns, worlds, quiet := [], [W()], false;
      Starts(start, ids);
      NoTurns(start, W(), exec);
      while steps < maxSteps && ids != []
        invariant executing.None? && environment == old(environment)
        invariant Going(start, actors, turns, ids, idx, pass, progress) && idx <= |ids|
        invariant steps == Spent(turns) && steps <= maxSteps
        invariant Executed(worlds, turns, exec) && Fair(start, worlds, turns)
        invariant |worlds| == |turns| + 1 && worlds[0] == old(W()) && worlds[|turns|] == W()
        decreases maxSteps - steps, |ids|, if progress then 1 else 0, |ids| - idx
      {
        if idx >= |ids| {
          if !progress {
            quiet := true;
            break;
          }
          NextPass(start, actors, turns, ids, idx, pass, progress);
          progress, idx := false, 0;
          pass := pass + 1;
        }
        var id := ids[idx];
        Present(start, actors, turns, ids, idx, pass, progress);
        if id !in actors || actors[id].finished {
          Dropped(start, actors, turns, ids, idx, pass, progress);
          ids := ids[..idx] + ids[idx + 1..];
          continue;
        }
        ghost var before := W();
        var did := Visit(id, exec);
        ghost var t := Turn(pass, id, before.actors[id], did);
        TurnedTook(before, id, exec);
        TurnKeeps(start, before.actors, actors, turns, ids, idx, pass, progress, t);
        TurnTaken(before, t, exec);
        PassesPast(start, before.actors, turns, ids, idx, pass, progress);
        ExecutedMore(worlds, turns, exec, W(), t);
        FairMore(start, worlds, turns, W(), t);
        turns, worlds := turns + [t], worlds + [W()];
        if did.Ran? || did.Retried? {
          progress := true;
        }
        if !did.Parked? && !did.Idle? {
          steps := steps + 1;
        }
        idx := idx + 1;
      }
      Ends(start, actors, turns, ids, idx, pass, progress, quiet, maxSteps);
      actors := Unfinished(actors);
    }
  }

  function Unfinished(actors: map<nat, Actor>): map<nat, Actor> {
    map a | a in actors && !actors[a].finished :: actors[a]
  }

  lemma NoTurns(start: map<nat, Actor>, w: World, exec: Execute)
    ensures Executed([w], [], exec) && Fair(start, [w], [])
  {
  }

  lemma TurnTaken(w: World, t: Turn, exec: Execute)
    requires t.id in w.actors && t.seen == w.actors[t.id] && !t.seen.finished && t.did == DidOf(w, t.id, exec)
    ensures TurnIs(w, Turned(w, t.id, exec), t, exec)
  {
    hide Turned, DidOf;
  }

  lemma PassesPast(start: map<nat, Actor>, actors: map<nat, Actor>, turns: seq<Turn>, ids: seq<nat>, idx: nat,
      pass: nat, progress: bool)
    requires Going(start, actors, turns, ids, idx, pass, progress)
    ensures PastPasses(start, actors, turns, pass)
  {
    hide PastPasses;
  }

  lemma NothingSpent()
    ensures Spent([]) == 0
  {
  }

  lemma Present(start: map<nat, Actor>, actors: map<nat, Actor>, turns: seq<Turn>, ids: seq<nat>, idx: nat, pass: nat,
      progress: bool)
    requires Going(start, actors, turns, ids, idx, pass, progress) && idx < |ids|
    ensures ids[idx] in actors
  {
  }

  /** What any run comes to. */
  ghost predicate Outcome(start: map<nat, Actor>, last: map<nat, Actor>, turns: seq<Turn>, quiet: bool, maxSteps: nat) {
    // The budget holds.
    && Spent(turns) <= maxSteps
    // Program order: completed statements and the rest of the body make up the original body.
    && (forall a | a in start :: a in last && Completed(turns, a) + last[a].body == start[a].body)
    // Only an actor with nothing left to do is marked finished.
    && (forall a | a in last && last[a].finished :: a in start && (start[a].finished || last[a].body == []))
    // Only actors that were there at the start get turns, each suited to what it found.
    && (forall i | 0 <= i < |turns| :: turns[i].id in start && Apt(turns[i]))
    // At most one turn per actor and pass, in id order.
    && (forall p: nat :: Ascending(Visited(turns, p)))
    // A pass that was left behind gave everybody a turn who is not finished by now.
    && (forall p: nat, a | LeftBehind(turns, p) && a in start :: a in Visited(turns, p) || last[a].finished)
    // Quiet: nobody listed can move.
    && (quiet ==> forall a | a in start :: last[a].finished || last[a].parked || last[a].body == [])
    && (!quiet ==> Spent(turns) == maxSteps || forall a | a in start :: last[a].finished)
  }

  ghost predicate LeftBehind(turns: seq<Turn>, p: nat) {
    exists i :: 0 <= i < |turns| && turns[i].pass > p
  }

  lemma Ends(start: map<nat, Actor>, last: map<nat, Actor>, turns: seq<Turn>, ids: seq<nat>, idx: nat, pass: nat,
      progress: bool,
             quiet: bool, maxSteps: nat)
    requires Going(start, last, turns, ids, idx, pass, progress) && Spent(turns) <= maxSteps
    requires quiet ==> idx == |ids| && !progress
    requires !quiet ==> Spent(turns) == maxSteps || ids == []
    ensures Outcome(start, last, turns, quiet, maxSteps)
  {
    hide Apt, Completed, Spent;
    forall p: nat
      ensures Ascending(Visited(turns, p))
    {
      if p > pass {
        LaterPassEmpty(turns, pass, p);
      }
    }
    hide Visited, Ascending;
    if quiet {
      forall a | a in start
        ensures last[a].finished || last[a].parked || last[a].body == []
      {
        if a in ids {
          var k :| 0 <= k < |ids| && ids[k] == a;
          assert Resting(last, ids[k]);
        }
      }
    }
  }
}
