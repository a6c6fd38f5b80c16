/** scripts/upload-flows.js: every flow definition file is sent by PATCH when the remote
    already lists its id and by POST otherwise, and then its operations are sent one by one
    in the order sortOperations gives, each by PATCH or POST according to the snapshot of
    remote flows taken once at the start. */
module FlowUpload {
  import opened Records
  import opened Remote
  import opened Sequencer

  /** The requests the script issues. */
  datatype FlowCall =
    | ListFlows                                    // GET /flows
    | CreateFlow(flowBody: Flow)                    // POST /flows
    | UpdateFlow(id: string, flowBody: Flow)        // PATCH /flows/{id}
    | CreateOperation(opBody: Operation)          // POST /operations
    | UpdateOperation(id: string, opBody: Operation) // PATCH /operations/{id}

  /** The answer to GET /flows: a failure, a payload whose `data` is not an array, or the flows. */
  datatype FlowListing = ListFailed | NoFlowArray | Listed(flows: seq<RemoteFlow>)

  /** A directory entry of the flows directory; `content` is None when reading or parsing it fails. */
  datatype FlowFile = FlowFile(name: string, content: Option<Flow>)

  /** What one step of the upload did: the requests it issued, and whether it ended
      normally (false: it threw, and the per-file catch took over). */
  datatype Attempt = Attempt(calls: seq<FlowCall>, completed: bool)

  // ----- the file filter -----

  /** The index of the last '.' of a name. */
  function LastDot(name: string): (r: Option<nat>)
    ensures r.Some? ==> r.value < |name|
  {
    if name == [] then None
    else if name[|name| - 1] == '.' then Some(|name| - 1)
    else LastDot(name[..|name| - 1])
  }

  /** LastDot finds the last dot, and None means the name has none. */
  lemma {:induction false} LastDotIsLast(name: string)
    ensures var r := LastDot(name);
      (r.Some? ==> name[r.value] == '.' && forall k :: r.value < k < |name| ==> name[k] != '.') &&
      (r.None? ==> forall k :: 0 <= k < |name| ==> name[k] != '.')
    decreases |name|
  {
    if name != [] && name[|name| - 1] != '.' {
      LastDotIsLast(name[..|name| - 1]);
    }
  }

  /** path.extname of a directory entry name (it holds no separator): from the last dot on,
      except when that dot is the first character or the name is "..". */
  function ExtName(name: string): string
  {
    match LastDot(name)
    case None => ""
    case Some(d) => if d == 0 || name == ".." then "" else name[d..]
  }

  predicate IsJsonFile(name: string)
  {
    ExtName(name) == ".json"
  }

  /** A name is processed exactly when it ends in ".json" with at least one character before it. */
  lemma JsonExtension(name: string)
    ensures IsJsonFile(name) <==> |name| > 5 && name[|name| - 5..] == ".json"
  {
    if |name| > 5 && name[|name| - 5..] == ".json" {
      var d := |name| - 5;
      assert name[d] == '.' && name[d + 1] == 'j' && name[d + 2] == 's' && name[d + 3] == 'o' && name[d + 4] == 'n' by {
        assert name[d..][0] == '.' && name[d..][1] == 'j' && name[d..][2] == 's' && name[d..][3] == 'o' && name[d..][4] == 'n';
      }
      LastDotIsLast(name);
      assert LastDot(name) == Some(d);
    }
    if IsJsonFile(name) {
      var d := LastDot(name).value;
      assert name[d..] == ".json";
      assert |name| - d == 5;
    }
  }

  lemma HiddenJsonSkipped()
    ensures !IsJsonFile(".json") && IsJsonFile("f1.json") && !IsJsonFile("f1.json.bak")
  {
    JsonExtension(".json");
    JsonExtension("f1.json");
    JsonExtension("f1.json.bak");
  }

  // ----- the existingFlows snapshot -----

  /** existingFlows after `flows.forEach((flow) => existingFlows.set(flow.id, flow))`. */
  function Filled(existing: map<string, RemoteFlow>, flows: seq<RemoteFlow>): (m: map<string, RemoteFlow>)
    ensures m.Keys == existing.Keys + (set f | f in flows :: f.id)
    decreases |flows|
  {
    if flows == [] then existing
    else
      assert flows == [flows[0]] + flows[1..];
      Filled(existing[flows[0].id := flows[0]], flows[1..])
  }

  /** The snapshot the run works with; it stays empty unless GET /flows returned an array. */
  function ExistingFlows(listing: FlowListing): map<string, RemoteFlow>
  {
    if listing.Listed? then Filled(map[], listing.flows) else map[]
  }

  /** A later listed flow with the same id replaces an earlier one. */
  lemma {:induction false} FilledLastWins(existing: map<string, RemoteFlow>, flows: seq<RemoteFlow>, i: nat)
    requires i < |flows|
    requires forall j :: i < j < |flows| ==> flows[j].id != flows[i].id
    ensures Filled(existing, flows)[flows[i].id] == flows[i]
    decreases |flows|
  {
    var next := existing[flows[0].id := flows[0]];
    if i > 0 {
      assert flows[1..][i - 1] == flows[i];
      FilledLastWins(next, flows[1..], i - 1);
    } else {
      FilledKeepsUnlisted(next, flows[1..], flows[0].id);
    }
  }

  /** An id that is not listed keeps the entry it had. */
  lemma {:induction false} FilledKeepsUnlisted(existing: map<string, RemoteFlow>, flows: seq<RemoteFlow>, id: string)
    requires id in existing
    requires forall j :: 0 <= j < |flows| ==> flows[j].id != id
    ensures Filled(existing, flows)[id] == existing[id]
    decreases |flows|
  {
    if flows != [] {
      FilledKeepsUnlisted(existing[flows[0].id := flows[0]], flows[1..], id);
    }
  }

  /** findOperation: the flow is in the snapshot, its `operations` is an array, and it holds the id. */
  predicate FindOperation(snapshot: map<string, RemoteFlow>, flowId: string, operationId: string)
  {
    flowId in snapshot && snapshot[flowId].operations.Some? && operationId in snapshot[flowId].operations.value
  }

  // ----- single requests -----

  /** The request uploadFlow sends: PATCH for a flow id in the snapshot, POST otherwise,
      with `operations` and `user_created` deleted from the body. */
  function FlowRequest(flow: Flow, snapshot: map<string, RemoteFlow>): (c: FlowCall)
    ensures c.UpdateFlow? <==> flow.id in snapshot
    ensures c.CreateFlow? <==> flow.id !in snapshot
    ensures c.UpdateFlow? ==> c.id == flow.id
    ensures c.flowBody.operations.None? && c.flowBody.userCreated.None?
    ensures c.flowBody.id == flow.id && c.flowBody.attrs == flow.attrs
  {
    var body := flow.(operations := None, userCreated := None);
    if flow.id in snapshot then UpdateFlow(flow.id, body) else CreateFlow(body)
  }

  /** The check at the top of uploadOperation: a truthy `reject` that is no id of the flow's
      operations. A dangling `resolve` is not checked. */
  predicate RejectDangles(op: Operation, all: seq<Operation>)
  {
    Present(op.reject) && !SomeHasId(all, op.reject.value)
  }

  /** `all.some((op) => op.id === id)`. */
  predicate SomeHasId(all: seq<Operation>, id: string)
  {
    all != [] && (all[0].id == id || SomeHasId(all[1..], id))
  }

  /** The request uploadOperation sends: PATCH when findOperation finds the operation in its
      flow's snapshot entry, POST otherwise; `user_created` deleted and `flow` set to the
      owning flow's id. */
  function OperationRequest(flowId: string, op: Operation, snapshot: map<string, RemoteFlow>): (c: FlowCall)
    ensures c.UpdateOperation? <==> FindOperation(snapshot, flowId, op.id)
    ensures c.CreateOperation? <==> !FindOperation(snapshot, flowId, op.id)
    ensures c.UpdateOperation? ==> c.id == op.id
    ensures c.opBody.userCreated.None? && c.opBody.flow == Some(flowId)
    ensures c.opBody.id == op.id && c.opBody.resolve == op.resolve && c.opBody.reject == op.reject && c.opBody.attrs == op.attrs
  {
    var body := op.(userCreated := None).(flow := Some(flowId));
    if FindOperation(snapshot, flowId, op.id) then UpdateOperation(op.id, body) else CreateOperation(body)
  }

  // ----- the specification of a run -----

  /** uploadOperation: skipped without a request when its reject dangles; otherwise one
      request, and a refused request throws. */
  function OperationAttempt(flowId: string, op: Operation, all: seq<Operation>, snapshot: map<string, RemoteFlow>, outcomes: seq<bool>, base: nat): Attempt
  {
    if RejectDangles(op, all) then Attempt([], true)
    else Attempt([OperationRequest(flowId, op, snapshot)], Accepted(outcomes, base))
  }

  /** The for-of loop of uploadFlow: uploads the sorted operations in turn until one throws. */
  function OperationsAttempt(flowId: string, sorted: seq<Operation>, all: seq<Operation>, snapshot: map<string, RemoteFlow>, outcomes: seq<bool>, base: nat): Attempt
    decreases |sorted|
  {
    if sorted == [] then Attempt([], true)
    else
      var step := OperationAttempt(flowId, sorted[0], all, snapshot, outcomes, base);
      if !step.completed then step
      else
        var rest := OperationsAttempt(flowId, sorted[1..], all, snapshot, outcomes, base + |step.calls|);
        Attempt(step.calls + rest.calls, rest.completed)
  }

  /** uploadFlow: the flow request; if it is accepted, sortOperations over the file's
      operations (a TypeError when there is no array, a RangeError on an exhausted stack),
      then the operations in sorted order. */
  function FlowAttempt(flow: Flow, snapshot: map<string, RemoteFlow>, outcomes: seq<bool>, base: nat, depth: nat): Attempt
  {
    var request := FlowRequest(flow, snapshot);
    if !Accepted(outcomes, base) then Attempt([request], false)
    else
      match flow.operations
      case None => Attempt([request], false)
      case Some(ops) =>
        match Sequenced(ops, depth)
        case None => Attempt([request], false)
        case Some(sorted) =>
          var rest := OperationsAttempt(flow.id, sorted, ops, snapshot, outcomes, base + 1);
          Attempt([request] + rest.calls, rest.completed)
  }

  /** A directory entry processFlows uploads: a .json name whose file reads and parses. */
  predicate Selected(file: FlowFile)
  {
    IsJsonFile(file.name) && file.content.Some?
  }

  /** The flows of the selected entries, in directory order; every other entry is only logged. */
  function Readable(files: seq<FlowFile>): seq<Flow>
  {
    if files == [] then []
    else
      var last := files[|files| - 1];
      Readable(files[..|files| - 1]) + if Selected(last) then [last.content.value] else []
  }

  /** The requests of one uploadFlow call, given the log position of its first request. */
  function FlowUploadCalls(snapshot: map<string, RemoteFlow>, outcomes: seq<bool>, depth: nat): (Flow, nat) -> seq<FlowCall>
  {
    (flow: Flow, base: nat) => FlowAttempt(flow, snapshot, outcomes, base, depth).calls
  }

  /** The loop of processFlows over the uploaded flows: each upload starts where the previous
      one stopped, and a failure ends only its own file. */
  function Chain(flows: seq<Flow>, upload: (Flow, nat) -> seq<FlowCall>, base: nat): seq<FlowCall>
    decreases |flows|
  {
    if flows == [] then []
    else
      var here := upload(flows[0], base);
      here + Chain(flows[1..], upload, base + |here|)
  }

  /** processFlows with GET /flows at log position `start`: a failed listing ends the run. */
  function RunLog(listing: FlowListing, files: seq<FlowFile>, outcomes: seq<bool>, start: nat, depth: nat): seq<FlowCall>
  {
    [ListFlows] +
      if listing.ListFailed? then []
      else Chain(Readable(files), FlowUploadCalls(ExistingFlows(listing), outcomes, depth), start + 1)
  }

  // ----- properties -----

  /** The operation requests of a flow's uploadable operations, in order. */
  function Requests(flowId: string, ops: seq<Operation>, snapshot: map<string, RemoteFlow>): seq<FlowCall>
  {
    if ops == [] then [] else [OperationRequest(flowId, ops[0], snapshot)] + Requests(flowId, ops[1..], snapshot)
  }

  /** The sorted operations uploadOperation does not skip, in sorted order. */
  function Uploadable(sorted: seq<Operation>, all: seq<Operation>): seq<Operation>
  {
    if sorted == [] then []
    else (if RejectDangles(sorted[0], all) then [] else [sorted[0]]) + Uploadable(sorted[1..], all)
  }

  /** The operation loop issues the requests of the uploadable operations in sorted order,
      all of them when it completes: a dangling reject is skipped, and after a request that
      throws no further operation of the flow is sent. */
  lemma {:induction false} OperationsIssueInOrder(flowId: string, sorted: seq<Operation>, all: seq<Operation>, snapshot: map<string, RemoteFlow>, outcomes: seq<bool>, base: nat)
    ensures var a := OperationsAttempt(flowId, sorted, all, snapshot, outcomes, base);
      var want := Requests(flowId, Uploadable(sorted, all), snapshot);
      a.calls <= want && (a.completed ==> a.calls == want)
    decreases |sorted|
  {
    if sorted != [] {
      var step := OperationAttempt(flowId, sorted[0], all, snapshot, outcomes, base);
      var rest := OperationsAttempt(flowId, sorted[1..], all, snapshot, outcomes, base + |step.calls|);
      var later := Requests(flowId, Uploadable(sorted[1..], all), snapshot);
      OperationsIssueInOrder(flowId, sorted[1..], all, snapshot, outcomes, base + |step.calls|);
      var a := OperationsAttempt(flowId, sorted, all, snapshot, outcomes, base);
      OperationsStep(flowId, sorted, all, snapshot, outcomes, base);
      UploadableUnfold(flowId, sorted, all, snapshot, outcomes, base);
      PrefixStep(step, rest, a, later, Requests(flowId, Uploadable(sorted, all), snapshot));
    }
  }

  /** Prepending one operation's calls to both the loop's calls and the wanted requests keeps
      the loop's calls a prefix of the wanted ones, equal to them when the loop completes. */
  lemma PrefixStep(step: Attempt, rest: Attempt, a: Attempt, later: seq<FlowCall>, want: seq<FlowCall>)
    requires rest.calls <= later && (rest.completed ==> rest.calls == later)
    requires step.completed ==> a.calls == step.calls + rest.calls && a.completed == rest.completed
    requires !step.completed ==> a == step
    requires want == step.calls + later
    ensures a.calls <= want && (a.completed ==> a.calls == want)
  {
    if step.completed {
      PrefixExtends(step.calls, rest.calls, later);
    } else {
      PrefixExtends(step.calls, [], later);
      assert step.calls + [] == step.calls;
    }
  }

  /** The wanted requests begin with exactly the calls of the first operation's attempt. */
  lemma UploadableUnfold(flowId: string, sorted: seq<Operation>, all: seq<Operation>, snapshot: map<string, RemoteFlow>, outcomes: seq<bool>, base: nat)
    requires sorted != []
    ensures Requests(flowId, Uploadable(sorted, all), snapshot) ==
      OperationAttempt(flowId, sorted[0], all, snapshot, outcomes, base).calls + Requests(flowId, Uploadable(sorted[1..], all), snapshot)
  {
    var op := sorted[0];
    var later := Uploadable(sorted[1..], all);
    if RejectDangles(op, all) {
      assert Uploadable(sorted, all) == later;
    } else {
      assert Uploadable(sorted, all) == [op] + later;
      RequestsCons(flowId, op, later, snapshot);
    }
  }

  lemma RequestsCons(flowId: string, op: Operation, ops: seq<Operation>, snapshot: map<string, RemoteFlow>)
    ensures Requests(flowId, [op] + ops, snapshot) == [OperationRequest(flowId, op, snapshot)] + Requests(flowId, ops, snapshot)
  {
    assert ([op] + ops)[1..] == ops;
  }

  /** Only the last request of the operation loop can have been refused, and the loop
      completes exactly when every request it issued was accepted. */
  lemma {:induction false} OperationsStopAtRefusal(flowId: string, sorted: seq<Operation>, all: seq<Operation>, snapshot: map<string, RemoteFlow>, outcomes: seq<bool>, base: nat)
    ensures var a := OperationsAttempt(flowId, sorted, all, snapshot, outcomes, base);
      (forall k :: base <= k < base + |a.calls| - 1 ==> Accepted(outcomes, k)) &&
      (a.completed <==> forall k :: base <= k < base + |a.calls| ==> Accepted(outcomes, k)) &&
      (!a.completed ==> a.calls != [] && !Accepted(outcomes, base + |a.calls| - 1))
    decreases |sorted|
  {
    if sorted != [] {
      var op := sorted[0];
      var step := OperationAttempt(flowId, op, all, snapshot, outcomes, base);
      OperationsStopAtRefusal(flowId, sorted[1..], all, snapshot, outcomes, base + |step.calls|);
    }
  }

  /** uploadFlow always starts with the flow request; a refused flow request sends no operation;
      only the last request of a file can have been refused; and a completed upload sent the
      requests of every uploadable operation, in sorted order. */
  lemma FlowAttemptShape(flow: Flow, snapshot: map<string, RemoteFlow>, outcomes: seq<bool>, base: nat, depth: nat)
    ensures var a := FlowAttempt(flow, snapshot, outcomes, base, depth);
      a.calls != [] && a.calls[0] == FlowRequest(flow, snapshot) &&
      (!Accepted(outcomes, base) ==> a.calls == [FlowRequest(flow, snapshot)] && !a.completed) &&
      (forall k :: base <= k < base + |a.calls| - 1 ==> Accepted(outcomes, k)) &&
      (a.completed ==>
        flow.operations.Some? && Sequenced(flow.operations.value, depth).Some? &&
        a.calls[1..] == Requests(flow.id, Uploadable(Sequenced(flow.operations.value, depth).value, flow.operations.value), snapshot))
  {
    var a := FlowAttempt(flow, snapshot, outcomes, base, depth);
    if Accepted(outcomes, base) && flow.operations.Some? && Sequenced(flow.operations.value, depth).Some? {
      var ops := flow.operations.value;
      var sorted := Sequenced(ops, depth).value;
      OperationsStopAtRefusal(flow.id, sorted, ops, snapshot, outcomes, base + 1);
      OperationsIssueInOrder(flow.id, sorted, ops, snapshot, outcomes, base + 1);
      var rest := OperationsAttempt(flow.id, sorted, ops, snapshot, outcomes, base + 1);
      assert a.calls == [FlowRequest(flow, snapshot)] + rest.calls;
      assert a.calls[1..] == rest.calls;
    }
  }

  /** A cycle of followed edges among a flow's operations: the flow request is still sent,
      then sortOperations overflows the stack and no operation of that flow is sent. */
  lemma CyclicFlowSendsOnlyTheFlow(flow: Flow, cycle: set<string>, snapshot: map<string, RemoteFlow>, outcomes: seq<bool>, base: nat, depth: nat)
    requires flow.operations.Some? && Closed(OperationMap(flow.operations.value), cycle)
    ensures FlowAttempt(flow, snapshot, outcomes, base, depth) == Attempt([FlowRequest(flow, snapshot)], false)
  {
    CycleOverflows(flow.operations.value, cycle, depth);
  }

  /** Every .json entry that reads and parses is uploaded. */
  lemma {:induction false} SelectedFileUploaded(files: seq<FlowFile>, k: nat)
    requires k < |files| && Selected(files[k])
    ensures files[k].content.value in Readable(files)
    decreases |files|
  {
    var init, last := files[..|files| - 1], files[|files| - 1];
    var tail: seq<Flow> := if Selected(last) then [last.content.value] else [];
    assert Readable(files) == Readable(init) + tail;
    if k < |files| - 1 {
      assert init[k] == files[k];
      SelectedFileUploaded(init, k);
    } else {
      assert tail == [files[k].content.value];
    }
  }

  /** Nothing but a .json entry that reads and parses is uploaded. */
  lemma {:induction false} OnlySelectedFilesUploaded(files: seq<FlowFile>)
    ensures forall f :: f in Readable(files) ==> exists k :: 0 <= k < |files| && Selected(files[k]) && files[k].content == Some(f)
    decreases |files|
  {
    if files != [] {
      var init := files[..|files| - 1];
      OnlySelectedFilesUploaded(init);
      forall f | f in Readable(files)
        ensures exists k :: 0 <= k < |files| && Selected(files[k]) && files[k].content == Some(f)
      {
        if f in Readable(init) {
          var k :| 0 <= k < |init| && Selected(init[k]) && init[k].content == Some(f);
          assert files[k] == init[k];
        } else {
          assert files[|files| - 1].content == Some(f);
        }
      }
    }
  }

  /** The loop over the flows appends the requests of one more flow at the end. */
  lemma {:induction false} ChainAppend(flows: seq<Flow>, flow: Flow, upload: (Flow, nat) -> seq<FlowCall>, base: nat)
    ensures var before := Chain(flows, upload, base);
      Chain(flows + [flow], upload, base) == before + upload(flow, base + |before|)
    decreases |flows|
  {
    if flows == [] {
      assert [flow][1..] == [];
    } else {
      var here := upload(flows[0], base);
      assert (flows + [flow])[0] == flows[0] && (flows + [flow])[1..] == flows[1..] + [flow];
      ChainAppend(flows[1..], flow, upload, base + |here|);
    }
  }

  /** One more directory entry adds its flow when it is selected, and nothing otherwise. */
  lemma ReadableStep(files: seq<FlowFile>, i: nat)
    requires i < |files|
    ensures Selected(files[i]) ==> Readable(files[..i + 1]) == Readable(files[..i]) + [files[i].content.value]
    ensures !Selected(files[i]) ==> Readable(files[..i + 1]) == Readable(files[..i])
  {
    var prefix := files[..i + 1];
    assert prefix[..|prefix| - 1] == files[..i] && prefix[|prefix| - 1] == files[i];
    if !Selected(files[i]) {
      assert Readable(prefix) == Readable(files[..i]) + [];
    }
  }

  /** ... and so the loop adds the upload of that flow, or nothing. */
  lemma ChainFileStep(files: seq<FlowFile>, i: nat, upload: (Flow, nat) -> seq<FlowCall>, base: nat, done: seq<FlowCall>, at: nat)
    requires i < |files| && done == Chain(Readable(files[..i]), upload, base) && at == base + |done|
    ensures Selected(files[i]) ==> Chain(Readable(files[..i + 1]), upload, base) == done + upload(files[i].content.value, at)
    ensures !Selected(files[i]) ==> Chain(Readable(files[..i + 1]), upload, base) == done
  {
    var flows := Readable(files[..i]);
    ReadableStep(files, i);
    if Selected(files[i]) {
      var flow := files[i].content.value;
      assert Readable(files[..i + 1]) == flows + [flow];
      ChainAppend(flows, flow, upload, base);
    } else {
      assert Readable(files[..i + 1]) == flows;
    }
  }

  /** One turn of the loop of processFlows, on the request log before and after it. */
  lemma FilesLoopStep(files: seq<FlowFile>, i: nat, upload: (Flow, nat) -> seq<FlowCall>,
                      start: seq<FlowCall>, before: seq<FlowCall>, after: seq<FlowCall>)
    requires i < |files|
    requires before == start + Chain(Readable(files[..i]), upload, |start|)
    requires Selected(files[i]) ==> after == before + upload(files[i].content.value, |before|)
    requires !Selected(files[i]) ==> after == before
    ensures after == start + Chain(Readable(files[..i + 1]), upload, |start|)
  {
    var done := Chain(Readable(files[..i]), upload, |start|);
    ChainFileStep(files, i, upload, |start|, done, |before|);
    if Selected(files[i]) {
      Associative(start, done, upload(files[i].content.value, |before|));
    }
  }

  /** A failure in one flow never stops the loop: every flow's upload is issued in full,
      right after the uploads of the flows before it, starting at log position `b`. */
  lemma {:induction false} ChainReachesEach(flows: seq<Flow>, upload: (Flow, nat) -> seq<FlowCall>, base: nat, k: nat) returns (b: nat)
    requires k < |flows|
    ensures b == base + |Chain(flows[..k], upload, base)|
    ensures Chain(flows[..k], upload, base) + upload(flows[k], b) <= Chain(flows, upload, base)
    ensures forall c :: c in upload(flows[k], b) ==> c in Chain(flows, upload, base)
    decreases k
  {
    var here := upload(flows[0], base);
    var whole := Chain(flows, upload, base);
    assert whole == here + Chain(flows[1..], upload, base + |here|);
    if k == 0 {
      b := base;
      assert flows[..k] == [];
    } else {
      var rest := flows[1..];
      b := ChainReachesEach(rest, upload, base + |here|, k - 1);
      assert rest[k - 1] == flows[k];
      var earlier := flows[..k];
      var restEarlier := Chain(rest[..k - 1], upload, base + |here|);
      assert earlier[0] == flows[0] && earlier[1..] == rest[..k - 1];
      assert Chain(earlier, upload, base) == here + restEarlier;
      PrefixExtends(here, restEarlier + upload(flows[k], b), Chain(rest, upload, base + |here|));
      Associative(here, restEarlier, upload(flows[k], b));
    }
    PrefixMembers(Chain(flows[..k], upload, base) + upload(flows[k], b), whole);
  }

  /** No upload issues a listing request, so neither does the loop. */
  lemma {:induction false} ChainWithout(flows: seq<Flow>, upload: (Flow, nat) -> seq<FlowCall>, base: nat, c: FlowCall)
    requires forall f: Flow, b: nat :: c !in upload(f, b)
    ensures c !in Chain(flows, upload, base)
    decreases |flows|
  {
    if flows != [] {
      ChainWithout(flows[1..], upload, base + |upload(flows[0], base)|, c);
    }
  }

  /** Every flow of the loop has its flow request issued. */
  lemma EveryFlowReached(flows: seq<Flow>, snapshot: map<string, RemoteFlow>, outcomes: seq<bool>, base: nat, depth: nat, j: nat)
    requires j < |flows|
    ensures FlowRequest(flows[j], snapshot) in Chain(flows, FlowUploadCalls(snapshot, outcomes, depth), base)
  {
    var upload := FlowUploadCalls(snapshot, outcomes, depth);
    var b := ChainReachesEach(flows, upload, base, j);
    FlowAttemptShape(flows[j], snapshot, outcomes, b, depth);
    assert upload(flows[j], b)[0] in upload(flows[j], b);
  }

  /** Once the listing succeeded, the flow request of every selected entry is issued,
      whatever happened to the entries before it. */
  lemma EveryJsonFileReached(listing: FlowListing, files: seq<FlowFile>, outcomes: seq<bool>, start: nat, depth: nat, k: nat)
    requires !listing.ListFailed? && k < |files| && Selected(files[k])
    ensures FlowRequest(files[k].content.value, ExistingFlows(listing)) in RunLog(listing, files, outcomes, start, depth)
  {
    SelectedFileUploaded(files, k);
    var flows := Readable(files);
    var j :| 0 <= j < |flows| && flows[j] == files[k].content.value;
    EveryFlowReached(flows, ExistingFlows(listing), outcomes, start + 1, depth, j);
  }

  /** Every request of the operation loop creates or updates an operation. */
  lemma {:induction false} OperationCallsOnly(flowId: string, sorted: seq<Operation>, all: seq<Operation>, snapshot: map<string, RemoteFlow>, outcomes: seq<bool>, base: nat)
    ensures forall c :: c in OperationsAttempt(flowId, sorted, all, snapshot, outcomes, base).calls ==> c.CreateOperation? || c.UpdateOperation?
    decreases |sorted|
  {
    if sorted != [] {
      var step := OperationAttempt(flowId, sorted[0], all, snapshot, outcomes, base);
      OperationCallsOnly(flowId, sorted[1..], all, snapshot, outcomes, base + |step.calls|);
    }
  }

  /** uploadFlow issues one flow request and otherwise only operation requests. */
  lemma NoListingInFlow(flow: Flow, snapshot: map<string, RemoteFlow>, outcomes: seq<bool>, base: nat, depth: nat)
    ensures var a := FlowAttempt(flow, snapshot, outcomes, base, depth);
      ListFlows !in a.calls && forall c :: c in a.calls[1..] ==> c.CreateOperation? || c.UpdateOperation?
  {
    if Accepted(outcomes, base) && flow.operations.Some? && Sequenced(flow.operations.value, depth).Some? {
      var ops := flow.operations.value;
      var sorted := Sequenced(ops, depth).value;
      OperationCallsOnly(flow.id, sorted, ops, snapshot, outcomes, base + 1);
      var a := FlowAttempt(flow, snapshot, outcomes, base, depth);
      var rest := OperationsAttempt(flow.id, sorted, ops, snapshot, outcomes, base + 1);
      assert a.calls == [FlowRequest(flow, snapshot)] + rest.calls;
      assert a.calls[1..] == rest.calls;
    }
  }

  /** The snapshot is taken once: GET /flows is the first request of the run and never
      issued again, and a failed listing ends the run there. */
  lemma SnapshotTakenOnce(listing: FlowListing, files: seq<FlowFile>, outcomes: seq<bool>, start: nat, depth: nat)
    ensures var log := RunLog(listing, files, outcomes, start, depth);
      log[0] == ListFlows && ListFlows !in log[1..] &&
      (listing.ListFailed? ==> log == [ListFlows])
  {
    if !listing.ListFailed? {
      var upload := FlowUploadCalls(ExistingFlows(listing), outcomes, depth);
      forall f: Flow, b: nat ensures ListFlows !in upload(f, b) {
        NoListingInFlow(f, ExistingFlows(listing), outcomes, b, depth);
      }
      ChainWithout(Readable(files), upload, start + 1, ListFlows);
    }
  }

  // A worked example: flow f1 with operations a (resolve b), b, and c whose reject names
  // "z", which is no operation of f1.
  const OpA := Operation("a", Some("b"), None, None, None, map[])
  const OpB := Operation("b", None, None, None, None, map[])
  const OpC := Operation("c", None, Some("z"), None, None, map[])
  const FlowF1 := Flow("f1", Some([OpA, OpB, OpC]), None, map[])

  /** sortOperations places b before a, and c (whose reject is not followed) last. */
  lemma ExampleSorted(depth: nat)
    requires depth >= 2
    ensures Sequenced([OpA, OpB, OpC], depth) == Some([OpB, OpA, OpC])
  {
    var ops := [OpA, OpB, OpC];
    var m := OperationMap(ops);
    assert ops[..2] == [OpA, OpB] && [OpA, OpB][..1] == [OpA] && [OpA][..0] == [];
    assert OperationMap([OpA]) == map["a" := OpA];
    assert OperationMap([OpA, OpB]) == map["a" := OpA, "b" := OpB];
    assert m == map["a" := OpA, "b" := OpB, "c" := OpC];
    assert Ids([]) == {} && Ids([OpB]) == {"b"} && Ids([OpB, OpA]) == {"b", "a"};
    assert Follow(m, OpB.resolve, [], depth - 2) == Some([]);
    assert Follow(m, OpB.reject, [], depth - 2) == Some([]);
    assert Append([], OpB) == [OpB];
    assert Visit(m, "b", [], depth - 1) == Some([OpB]);
    assert Follow(m, OpA.resolve, [], depth - 1) == Some([OpB]);
    assert Follow(m, OpA.reject, [OpB], depth - 1) == Some([OpB]);
    assert Append([OpB], OpA) == [OpB, OpA];
    assert Visit(m, "a", [], depth) == Some([OpB, OpA]);
    assert Append([OpB, OpA], OpB) == [OpB, OpA];
    assert Visit(m, "b", [OpB, OpA], depth) == Some([OpB, OpA]);
    assert "z" !in m;
    assert Follow(m, OpC.resolve, [OpB, OpA], depth - 1) == Some([OpB, OpA]);
    assert Follow(m, OpC.reject, [OpB, OpA], depth - 1) == Some([OpB, OpA]);
    assert Append([OpB, OpA], OpC) == [OpB, OpA, OpC];
    assert Visit(m, "c", [OpB, OpA], depth) == Some([OpB, OpA, OpC]);
    assert ops[1..] == [OpB, OpC] && ops[1..][1..] == [OpC] && ops[1..][1..][1..] == [];
    assert Sweep(m, [OpC], [OpB, OpA], depth) == Some([OpB, OpA, OpC]);
    assert Sweep(m, [OpB, OpC], [OpB, OpA], depth) == Some([OpB, OpA, OpC]);
  }

  /** Against an empty remote, b and a are created in that order and c is skipped. */
  lemma ExampleOperations()
    ensures OperationsAttempt("f1", [OpB, OpA, OpC], [OpA, OpB, OpC], map[], [], 2) ==
      Attempt([CreateOperation(OpB.(flow := Some("f1"))), CreateOperation(OpA.(flow := Some("f1")))], true)
  {
    var ops := [OpA, OpB, OpC];
    var snapshot: map<string, RemoteFlow> := map[];
    assert ops[1..] == [OpB, OpC] && [OpB, OpC][1..] == [OpC] && [OpC][1..] == [];
    assert !SomeHasId([OpC], "z");
    assert !SomeHasId([OpB, OpC], "z");
    assert !SomeHasId(ops, "z");
    assert RejectDangles(OpC, ops);
    assert !RejectDangles(OpA, ops) && !RejectDangles(OpB, ops);
    var sorted := [OpB, OpA, OpC];
    assert sorted[1..] == [OpA, OpC] && sorted[1..][1..] == [OpC] && sorted[1..][1..][1..] == [];
    assert !FindOperation(snapshot, "f1", "a") && !FindOperation(snapshot, "f1", "b");
    assert OperationsAttempt("f1", [OpC], ops, snapshot, [], 4) == Attempt([], true);
    assert OperationsAttempt("f1", [OpA, OpC], ops, snapshot, [], 3) == Attempt([CreateOperation(OpA.(flow := Some("f1")))], true);
  }

  /** Against an empty remote, the run lists the flows, creates f1, then b, then a, and
      sends nothing for c: its reject dangles. */
  lemma DanglingRejectScenario(depth: nat)
    requires depth >= 2
    ensures RunLog(Listed([]), [FlowFile("f1.json", Some(FlowF1))], [], 0, depth) ==
      [ListFlows, CreateFlow(FlowF1.(operations := None)),
       CreateOperation(OpB.(flow := Some("f1"))), CreateOperation(OpA.(flow := Some("f1")))]
  {
    ExampleSorted(depth);
    ExampleOperations();
    var calls := [CreateFlow(FlowF1.(operations := None)), CreateOperation(OpB.(flow := Some("f1"))), CreateOperation(OpA.(flow := Some("f1")))];
    assert FlowAttempt(FlowF1, map[], [], 1, depth).calls == calls;
    JsonExtension("f1.json");
    assert Readable([FlowFile("f1.json", Some(FlowF1))]) == [FlowF1];
    assert Filled(map[], []) == map[];
    assert [FlowF1][1..] == [];
    assert Chain([FlowF1], FlowUploadCalls(map[], [], depth), 1) == calls;
  }

  /** One turn of the operation loop. */
  lemma OperationsStep(flowId: string, sorted: seq<Operation>, all: seq<Operation>, snapshot: map<string, RemoteFlow>, outcomes: seq<bool>, base: nat)
    requires sorted != []
    ensures var step := OperationAttempt(flowId, sorted[0], all, snapshot, outcomes, base);
      var rest := OperationsAttempt(flowId, sorted[1..], all, snapshot, outcomes, base + |step.calls|);
      OperationsAttempt(flowId, sorted, all, snapshot, outcomes, base) ==
        if step.completed then Attempt(step.calls + rest.calls, rest.completed) else step
  {
  }

  /** One turn of the for-of loop of uploadFlow, on the request log before and after it:
      the operation's calls join those already sent, and either the loop goes on with the
      rest of the sorted operations or the whole attempt ends here. */
  lemma OperationsLoopStep(flowId: string, sorted: seq<Operation>, i: nat, all: seq<Operation>, snapshot: map<string, RemoteFlow>, outcomes: seq<bool>,
                           start: seq<FlowCall>, sent: seq<FlowCall>, whole: Attempt, before: seq<FlowCall>, after: seq<FlowCall>, done: bool)
    requires i < |sorted| && before == start + sent
    requires var rest := OperationsAttempt(flowId, sorted[i..], all, snapshot, outcomes, |before|);
      whole == Attempt(sent + rest.calls, rest.completed)
    requires var step := OperationAttempt(flowId, sorted[i], all, snapshot, outcomes, |before|);
      after == before + step.calls && done == step.completed
    ensures var step := OperationAttempt(flowId, sorted[i], all, snapshot, outcomes, |before|);
      after == start + (sent + step.calls) &&
      (!done ==> after == start + whole.calls && !whole.completed) &&
      (done ==> var rest := OperationsAttempt(flowId, sorted[i + 1..], all, snapshot, outcomes, |after|);
        whole == Attempt((sent + step.calls) + rest.calls, rest.completed))
  {
    var step := OperationAttempt(flowId, sorted[i], all, snapshot, outcomes, |before|);
    var rest := OperationsAttempt(flowId, sorted[i + 1..], all, snapshot, outcomes, |before| + |step.calls|);
    OperationsStep(flowId, sorted[i..], all, snapshot, outcomes, |before|);
    assert sorted[i..][0] == sorted[i] && sorted[i..][1..] == sorted[i + 1..];
    Associative(start, sent, step.calls);
    if done {
      assert |after| == |before| + |step.calls|;
      Associative(sent, step.calls, rest.calls);
    }
  }

  /** How processFlows puts the run together: GET /flows, then, unless it failed, the loop
      over the flows of the selected entries. */
  lemma RunLogSteps(listing: FlowListing, files: seq<FlowFile>, outcomes: seq<bool>, depth: nat,
                    before: seq<FlowCall>, listed: seq<FlowCall>, after: seq<FlowCall>)
    requires listed == before + [ListFlows]
    requires listing.ListFailed? ==> after == listed
    requires !listing.ListFailed? ==>
      after == listed + Chain(Readable(files), FlowUploadCalls(ExistingFlows(listing), outcomes, depth), |listed|)
    ensures after == before + RunLog(listing, files, outcomes, |before|, depth)
  {
    var rest := if listing.ListFailed? then [] else Chain(Readable(files), FlowUploadCalls(ExistingFlows(listing), outcomes, depth), |before| + 1);
    assert RunLog(listing, files, outcomes, |before|, depth) == [ListFlows] + rest;
    Associative(before, [ListFlows], rest);
  }

  /** The upload script's state: the existingFlows map and the connection to the remote. */
  class FlowUploader {
    var existingFlows: map<string, RemoteFlow>
    const gateway: Gateway<FlowCall>
    /** Nested addOperation calls the JavaScript engine allows before a RangeError. */
    const stackDepth: nat

    constructor (gateway: Gateway<FlowCall>, stackDepth: nat)
      ensures existingFlows == map[] && this.gateway == gateway && this.stackDepth == stackDepth
    {
      existingFlows := map[];
      this.gateway := gateway;
      this.stackDepth := stackDepth;
    }

    /** fetchAllFlows: false when GET /flows fails (it throws). */
    method FetchAllFlows(listing: FlowListing) returns (fetched: bool)
      modifies this, gateway
      ensures gateway.log == old(gateway.log) + [ListFlows]
      ensures fetched == !listing.ListFailed?
      ensures existingFlows == if listing.Listed? then Filled(old(existingFlows), listing.flows) else old(existingFlows)
    {
      gateway.Get(ListFlows);
      if listing.ListFailed? {
        return false;
      }
      if listing.Listed? {
        var flows := listing.flows;
        for i := 0 to |flows|
          invariant gateway.log == old(gateway.log) + [ListFlows]
          invariant Filled(old(existingFlows), flows) == Filled(existingFlows, flows[i..])
        {
          assert flows[i..][1..] == flows[i + 1..];
          existingFlows := existingFlows[flows[i].id := flows[i]];
        }
        assert flows[|flows|..] == [];
      }
      return true;
    }

    /** uploadOperation: false when it throws. */
    method UploadOperation(flowId: string, operation: Operation, allOperations: seq<Operation>) returns (completed: bool)
      modifies gateway
      ensures var a := OperationAttempt(flowId, operation, allOperations, existingFlows, gateway.outcomes, |old(gateway.log)|);
        gateway.log == old(gateway.log) + a.calls && completed == a.completed
    {
      if RejectDangles(operation, allOperations) {
        return true;
      }
      var sent := operation.(userCreated := None);
      var operationExists := FindOperation(existingFlows, flowId, sent.id);
      sent := sent.(flow := Some(flowId));
      var request := if operationExists then UpdateOperation(sent.id, sent) else CreateOperation(sent);
      completed := gateway.Send(request);
    }

    /** uploadFlow: false when it throws. */
    method UploadFlow(flow: Flow) returns (completed: bool)
      modifies gateway
      ensures var a := FlowAttempt(flow, existingFlows, gateway.outcomes, |old(gateway.log)|, stackDepth);
        gateway.log == old(gateway.log) + a.calls && completed == a.completed
    {
      var flowOperations := flow.operations;
      var body := flow.(operations := None, userCreated := None);
      var request := if flow.id in existingFlows then UpdateFlow(flow.id, body) else CreateFlow(body);
      var accepted := gateway.Send(request);
      if !accepted {
        return false;
      }
      if flowOperations.None? {
        return false;
      }
      var sorted := SortOperations(flowOperations.value, stackDepth);
      if sorted.None? {
        return false;
      }
      completed := UploadOperations(flow.id, sorted.value, flowOperations.value);
    }

    /** The for-of loop of uploadFlow over the sorted operations; false when one throws. */
    method UploadOperations(flowId: string, sorted: seq<Operation>, allOperations: seq<Operation>) returns (completed: bool)
      modifies gateway
      ensures var a := OperationsAttempt(flowId, sorted, allOperations, existingFlows, gateway.outcomes, |old(gateway.log)|);
        gateway.log == old(gateway.log) + a.calls && completed == a.completed
    {
      ghost var start := gateway.log;
      ghost var whole := OperationsAttempt(flowId, sorted, allOperations, existingFlows, gateway.outcomes, |start|);
      ghost var sent: seq<FlowCall> := [];
      for i := 0 to |sorted|
        invariant gateway.log == start + sent
        invariant var rest := OperationsAttempt(flowId, sorted[i..], allOperations, existingFlows, gateway.outcomes, |gateway.log|);
          whole == Attempt(sent + rest.calls, rest.completed)
      {
        ghost var before := gateway.log;
        ghost var step := OperationAttempt(flowId, sorted[i], allOperations, existingFlows, gateway.outcomes, |before|);
        var done := UploadOperation(flowId, sorted[i], allOperations);
        OperationsLoopStep(flowId, sorted, i, allOperations, existingFlows, gateway.outcomes, start, sent, whole, before, gateway.log, done);
        if !done {
          return false;
        }
        sent := sent + step.calls;
      }
      assert sorted[|sorted|..] == [] && sent + [] == sent;
      return true;
    }

    /** processFlows: the snapshot, then the directory entries in the order readdir lists them. */
    method ProcessFlows(listing: FlowListing, files: seq<FlowFile>)
      requires existingFlows == map[]
      modifies this, gateway
      ensures gateway.log == old(gateway.log) + RunLog(listing, files, gateway.outcomes, |old(gateway.log)|, stackDepth)
    {
      ghost var before := gateway.log;
      var fetched := FetchAllFlows(listing);
      if !fetched {
        RunLogSteps(listing, files, gateway.outcomes, stackDepth, before, gateway.log, gateway.log);
        return;
      }
      assert existingFlows == ExistingFlows(listing);
      ghost var listed := gateway.log;
      UploadFiles(files);
      RunLogSteps(listing, files, gateway.outcomes, stackDepth, before, listed, gateway.log);
    }

    /** The for-of loop of processFlows over the directory entries. */
    method UploadFiles(files: seq<FlowFile>)
      modifies gateway
      ensures gateway.log == old(gateway.log) + Chain(Readable(files), FlowUploadCalls(existingFlows, gateway.outcomes, stackDepth), |old(gateway.log)|)
    {
      ghost var start := gateway.log;
      ghost var upload := FlowUploadCalls(existingFlows, gateway.outcomes, stackDepth);
      for i := 0 to |files|
        invariant upload == FlowUploadCalls(existingFlows, gateway.outcomes, stackDepth)
        invariant gateway.log == start + Chain(Readable(files[..i]), upload, |start|)
      {
        ghost var before := gateway.log;
        UploadFile(files[i], upload);
        FilesLoopStep(files, i, upload, start, before, gateway.log);
      }
      assert files[..|files|] == files;
    }

    /** One iteration: a .json entry that reads and parses is uploaded; a failure stays
        inside the per-file catch, and any other entry is only logged. */
    method UploadFile(file: FlowFile, ghost upload: (Flow, nat) -> seq<FlowCall>)
      requires upload == FlowUploadCalls(existingFlows, gateway.outcomes, stackDepth)
      modifies gateway
      ensures Selected(file) ==> gateway.log == old(gateway.log) + upload(file.content.value, |old(gateway.log)|)
      ensures !Selected(file) ==> gateway.log == old(gateway.log)
    {
      if IsJsonFile(file.name) {
        if file.content.Some? {
          var _ := UploadFlow(file.content.value);
        }
      }
    }
  }
}
