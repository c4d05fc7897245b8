// Create and provision commands against the admin log
// (admin/slices/create_boundary/command_handler.go and
// admin/slices/boundary_provisioning/command_handler.go), in any interleaving with each other
// and with unrelated saves. Each command reads a context, decides, and appends under a
// consistency check on what it read.
module BoundaryLifecycle {
  import opened Common
  import opened Ordering
  import opened Tags
  import opened EventLog
  import opened ConsistencyQueries
  import opened SqliteStore
  import CCC = CommandContextConsistency
  import opened EventReads
  import opened BoundaryCatalog
  import opened BoundaryRebuild

  datatype Definition = Definition(name: string, description: string, backend: string, namespace: string)

  // normalize and validateDefinition.
  predicate ValidDefinition(d: Definition) {
    ValidName(d.name) && d.backend != "" && d.namespace != ""
  }

  // ---- What is appended ----

  // What an append carries besides the event's own data.
  datatype Envelope = Envelope(cancelled: bool, eventId: string, metadata: Field, created: string)

  // The description is left out when empty; `rendered` is the text of the nested placement.
  function CreatedData(d: Definition, rendered: string): Document {
    map["boundary" := TextField(d.name),
        "placement" := ObjectField(rendered, map["backend" := TextField(d.backend), "namespace" := TextField(d.namespace)])]
    + (if d.description == "" then map[] else map["description" := TextField(d.description)])
  }

  function ActivatedData(name: string): Document {
    map["boundary" := TextField(name)]
  }

  function FailedData(name: string, error: string): Document {
    map["boundary" := TextField(name), "error" := TextField(error)]
  }

  // One event, checked against the query and the position its context was read at.
  ghost function Appending(env: Envelope, kind: string, data: Document, query: Query, position: Position): Save {
    Save(env.cancelled, [PreparedEvent(env.eventId, kind, env.metadata, data, true)],
         DistinctChecks([Observation(query, position)]), env.created)
  }

  // ---- The commands ----

  // The context position a command read, and how much of the log it was read from.
  datatype Reading = Reading(position: Position, seen: nat)

  // Where a command stands.
  datatype Command =
    | Creating(definition: Definition, read: Reading)
    | Attempting(name: string, read: Reading, status: BoundaryStatus)
    | Activating(name: string, read: Reading, attempts: nat)
    | Reloading(name: string, attempts: nat)
    | Failing(name: string, read: Reading, error: string)
    | Ended

  // Every save the admin boundary was asked for, in queue order, and the commands under way.
  datatype Admin = Admin(history: seq<Save>, commands: map<nat, Command>)

  const INITIAL := Admin([], map[])

  ghost function Rows(s: Admin): Log {
    ServeAll(EMPTY, s.history).0.rows
  }

  datatype Step =
    | BeginCreate(id: nat, definition: Definition)
    | AppendCreated(id: nat, env: Envelope, rendered: string)
    | BeginProvision(id: nat, definition: Definition)
    | ProvisionSucceeds(id: nat)
    | ProvisionFails(id: nat, error: string)
    | AppendActivated(id: nat, env: Envelope)
    | Reload(id: nat)
    | AppendFailed(id: nat, env: Envelope)
    | SaveOther(save: Save)

  predicate IsOther(save: Save) {
    forall e :: e in save.events ==> e.kind !in {CREATED, ACTIVATED, FAILED}
  }

  predicate Enabled(s: Admin, step: Step) {
    match step
    case BeginCreate(id, d) => id !in s.commands && ValidDefinition(d)
    case AppendCreated(id, _, _) => id in s.commands && s.commands[id].Creating?
    case BeginProvision(id, d) => id !in s.commands && ValidDefinition(d)
    case ProvisionSucceeds(id) => id in s.commands && s.commands[id].Attempting?
    case ProvisionFails(id, _) => id in s.commands && s.commands[id].Attempting?
    case AppendActivated(id, _) => id in s.commands && s.commands[id].Activating?
    case Reload(id) => id in s.commands && s.commands[id].Reloading?
    case AppendFailed(id, _) => id in s.commands && s.commands[id].Failing?
    case SaveOther(save) => IsOther(save)
  }

  ghost function ReadNow(rows: Log, query: Query): Reading {
    Reading(Newest(rows, query), |rows|)
  }

  // The create command's loadContext finds an existing definition or goes on.
  ghost function LoadForCreate(rows: Log, d: Definition): Command {
    if NewestRow(rows, OfType(d.name, CREATED)).Some? then Ended else Creating(d, ReadNow(rows, DefinitionQuery(d.name)))
  }

  // The provision command's loadContext fails, finds the boundary active, or goes on.
  ghost function LoadForProvision(rows: Log, name: string): Command {
    var boundary := Rebuilt(rows, name);
    if boundary.Err? || boundary.value.status == Active then Ended
    else Attempting(name, ReadNow(rows, LifecycleCriteria(name)), boundary.value.status)
  }

  function With(s: Admin, id: nat, command: Command): Admin {
    s.(commands := s.commands[id := command])
  }

  predicate Appends(step: Step) {
    step.AppendCreated? || step.AppendActivated? || step.AppendFailed?
  }

  // What a command submits.
  ghost function Submission(s: Admin, step: Step): Save
    requires Enabled(s, step) && Appends(step)
  {
    var command := s.commands[step.id];
    match step
    case AppendCreated(_, env, rendered) =>
      Appending(env, CREATED, CreatedData(command.definition, rendered), DefinitionQuery(command.definition.name), command.read.position)
    case AppendActivated(_, env) =>
      Appending(env, ACTIVATED, ActivatedData(command.name), LifecycleCriteria(command.name), command.read.position)
    case AppendFailed(_, env) =>
      Appending(env, FAILED, FailedData(command.name, command.error), LifecycleCriteria(command.name), command.read.position)
  }

  // What its caller makes of the outcome: only a conflicting activation is tried again.
  ghost function Afterwards(s: Admin, step: Step): Command
    requires Enabled(s, step) && Appends(step)
  {
    var command := s.commands[step.id];
    if step.AppendActivated? && Serve(ServeAll(EMPTY, s.history).0, Submission(s, step)).1.Conflict?
    then Reloading(command.name, command.attempts + 1)
    else Ended
  }

  ghost function Apply(s: Admin, step: Step): Admin
    requires Enabled(s, step)
  {
    match step
    case BeginCreate(id, d) => With(s, id, LoadForCreate(Rows(s), d))
    case BeginProvision(id, d) => With(s, id, LoadForProvision(Rows(s), d.name))
    case ProvisionSucceeds(id) => With(s, id, Activating(s.commands[id].name, s.commands[id].read, 0))
    // A failure already on record is not recorded again.
    case ProvisionFails(id, error) =>
      With(s, id, if s.commands[id].status == Broken then Ended else Failing(s.commands[id].name, s.commands[id].read, error))
    case Reload(id) =>
      var loaded := LoadForProvision(Rows(s), s.commands[id].name);
      With(s, id, if loaded.Ended? then Ended else Activating(loaded.name, loaded.read, s.commands[id].attempts))
    case SaveOther(save) => s.(history := s.history + [save])
    case _ => Admin(s.history + [Submission(s, step)], s.commands[step.id := Afterwards(s, step)])
  }

  // A run takes each step that is possible when its turn comes.
  ghost function Run(steps: seq<Step>): Admin {
    if steps == [] then INITIAL
    else
      var s, step := Run(steps[..|steps| - 1]), steps[|steps| - 1];
      if Enabled(s, step) then Apply(s, step) else s
  }

  // ---- A boundary's lifecycle ----

  datatype Kind = DefinitionKind | ActivationKind | FailureKind

  function KindOf(doc: Document): Kind {
    if EventType(doc) == CREATED then DefinitionKind
    else if EventType(doc) == ACTIVATED then ActivationKind
    else FailureKind
  }

  // The kinds of a boundary's lifecycle events, in order.
  function Kinds(rows: Log, name: string): seq<Kind> {
    if rows == [] then []
    else
      var last := rows[|rows| - 1];
      Kinds(rows[..|rows| - 1], name) + (if Concerns(last.doc, name) then [KindOf(last.doc)] else [])
  }

  // Created, then at most one failure, then at most one activation, and nothing after it.
  predicate Proper(kinds: seq<Kind>) {
    || kinds == []
    || kinds == [DefinitionKind]
    || kinds == [DefinitionKind, FailureKind]
    || kinds == [DefinitionKind, ActivationKind]
    || kinds == [DefinitionKind, FailureKind, ActivationKind]
  }

  lemma ProperPrefix(kinds: seq<Kind>, k: nat)
    requires Proper(kinds) && k <= |kinds|
    ensures Proper(kinds[..k])
  {
  }

  lemma {:induction false} KindsAppend(a: Log, b: Log, name: string)
    ensures Kinds(a + b, name) == Kinds(a, name) + Kinds(b, name)
  {
    if b == [] {
      assert a + b == a;
    } else {
      var init := b[..|b| - 1];
      assert (a + b)[..|a + b| - 1] == a + init;
      KindsAppend(a, init, name);
    }
  }

  lemma {:induction false} NoKinds(rows: Log, name: string)
    requires forall i :: 0 <= i < |rows| ==> !Concerns(rows[i].doc, name)
    ensures Kinds(rows, name) == []
  {
    if rows != [] {
      NoKinds(rows[..|rows| - 1], name);
    }
  }

  lemma KindsOne(row: Row, name: string)
    ensures Kinds([row], name) == if Concerns(row.doc, name) then [KindOf(row.doc)] else []
  {
    assert [row][..0] == [];
  }

  // The newest events of each type, when a boundary's lifecycle is proper.
  ghost predicate FoundByKind(rows: Log, name: string) {
    var kinds := Kinds(rows, name);
    var c, a, f := NewestRow(rows, OfType(name, CREATED)), NewestRow(rows, OfType(name, ACTIVATED)), NewestRow(rows, OfType(name, FAILED));
    && (c.Some? <==> kinds != [])
    && (a.Some? <==> ActivationKind in kinds)
    && (f.Some? <==> FailureKind in kinds)
    && (a.Some? ==> c.Some? && After(a.value.position, c.value.position))
    && (f.Some? ==> c.Some? && After(f.value.position, c.value.position))
  }

  lemma {:induction false} FindsByKind(rows: Log, name: string)
    requires Ordered(rows) && name != "" && Proper(Kinds(rows, name))
    ensures FoundByKind(rows, name)
  {
    if rows != [] {
      var init, last := rows[..|rows| - 1], rows[|rows| - 1];
      assert rows == init + [last];
      OrderedAppend(init, last);
      ProperPrefix(Kinds(rows, name), |Kinds(init, name)|);
      assert Kinds(rows, name)[..|Kinds(init, name)|] == Kinds(init, name);
      FindsByKind(init, name);
      NewestRowIsNewest(init, OfType(name, CREATED));
      FindsLast(init, last, name);
    }
  }

  lemma FindsLast(init: Log, last: Row, name: string)
    requires name != "" && Proper(Kinds(init + [last], name)) && FoundByKind(init, name)
    requires NewestRow(init, OfType(name, CREATED)).Some? ==> After(last.position, NewestRow(init, OfType(name, CREATED)).value.position)
    ensures FoundByKind(init + [last], name)
  {
    var rows, kinds := init + [last], Kinds(init, name);
    KindsAppend(init, [last], name);
    KindsOne(last, name);
    NewestOneMore(init, last, name, CREATED);
    NewestOneMore(init, last, name, ACTIVATED);
    NewestOneMore(init, last, name, FAILED);
    hide TextAt, NewestRow, Kinds, EventType, OfType;
    if Concerns(last.doc, name) {
      assert Kinds(rows, name) == kinds + [KindOf(last.doc)];
      LastOfProper(kinds, KindOf(last.doc));
    }
  }

  lemma NewestOneMore(init: Log, last: Row, name: string, kind: string)
    ensures NewestRow(init + [last], OfType(name, kind))
      == if EventType(last.doc) == kind && TextAt(last.doc, "boundary") == Some(name) then Some(last) else NewestRow(init, OfType(name, kind))
  {
    assert (init + [last])[..|init|] == init;
  }

  lemma LastOfProper(kinds: seq<Kind>, kind: Kind)
    requires Proper(kinds + [kind])
    ensures kinds == [] <==> kind == DefinitionKind
    ensures forall k :: k in kinds + [kind] <==> k in kinds || k == kind
  {
    assert (kinds + [kind])[|kinds|] == kind;
  }

  // The rebuilt status tells the lifecycle.
  lemma {:induction false} StatusTellsKinds(rows: Log, name: string)
    requires Ordered(rows) && name != "" && Proper(Kinds(rows, name)) && Rebuilt(rows, name).Ok?
    ensures match Rebuilt(rows, name).value.status
      case Active => ActivationKind in Kinds(rows, name)
      case Broken => Kinds(rows, name) == [DefinitionKind, FailureKind]
      case Provisioning => Kinds(rows, name) == [DefinitionKind]
  {
    hide Rebuilt, NewestRow, OfType, Kinds;
    FindsByKind(rows, name);
    RebuiltStatus(rows, name);
  }
}
