/** The response cache of the git proxy (internal/gitcache/handler.go): a fetch is replayed
    from a file when there is one, and is otherwise copied from the upstream to the client
    and to a temporary file, which is renamed to its place when the copy is complete.

    An event moves one request over one file system or network operation, evicts a file or
    kills requests. A file name leads to an inode, and an open file stays readable after
    its name is gone. */
module ResponseCache {
  import opened Prelude
  import opened ByteStrings

  /** `command` is the re-encoded fetch command. */
  datatype Request = Request(owner: string, repo: string, command: string)

  predicate NameChar(c: char) {
    'a' <= c <= 'z' || 'A' <= c <= 'Z' || '0' <= c <= '9' || c == '.' || c == '_' || c == '-'
  }

  predicate ValidName(name: string) {
    name != "" && name != "." && name != ".." && forall i :: 0 <= i < |name| ==> NameChar(name[i])
  }

  predicate Valid(req: Request) {
    ValidName(req.owner) && ValidName(req.repo)
  }

  /** The input of the cache key's hash. The hash is taken to be injective, so that this
      text stands for the key. */
  function KeyText(req: Request): string {
    req.owner + "/" + req.repo + "\0" + req.command
  }

  function Directory(req: Request): string {
    req.owner + "/" + req.repo
  }

  lemma KeyIdentifiesRequest(a: Request, b: Request)
    requires Valid(a) && Valid(b)
    ensures KeyText(a) == KeyText(b) <==> a == b
  {
    if KeyText(a) == KeyText(b) {
      var x, y := a.repo + "\0" + a.command, b.repo + "\0" + b.command;
      assert KeyText(a) == a.owner + "/" + x && KeyText(b) == b.owner + "/" + y;
      FirstSeparator(a.owner, x, b.owner, y, '/');
      FirstSeparator(a.repo, a.command, b.repo, b.command, '\0');
    }
  }

  /** Without the restriction on names, requests for two repositories could collide. */
  lemma SlashCollides()
    ensures var a, b := Request("a/b", "c", ""), Request("a", "b/c", ""); KeyText(a) == KeyText(b) && a != b
  {}

  // ----- State -----

  datatype Path = Temp(dir: string, suffix: nat) | Final(dir: string, key: string)

  function PathOf(req: Request): Path {
    Final(Directory(req), KeyText(req))
  }

  type Inode = nat
  type Thread = nat

  datatype Result = Hit | Miss | Failed

  datatype Pc =
    | Open
    | Replay(inode: Inode, pos: nat)
    | AskUpstream
    | CreateTemp(body: Bytes)
    | Tee(body: Bytes, temp: Path, pos: nat)
    | Rename(body: Bytes, temp: Path)
    | RemoveTemp(temp: Path, outcome: Result)
    | Stream(body: Bytes, pos: nat)
    | Done(result: Result)

  /** `sent` is what the client has received. */
  datatype Job = Job(req: Request, pc: Pc, sent: Bytes)

  /** `served` is history: the complete bodies with which the upstream answered. */
  datatype State = State(
    names: map<Path, Inode>,
    data: seq<Bytes>,
    jobs: map<Thread, Job>,
    served: set<(Request, Bytes)>)
  {
    function Goto(t: Thread, pc: Pc): State
      requires t in jobs
    {
      this.(jobs := jobs[t := jobs[t].(pc := pc)])
    }

    function Send(t: Thread, bytes: Bytes, pc: Pc): State
      requires t in jobs
    {
      this.(jobs := jobs[t := jobs[t].(pc := pc, sent := jobs[t].sent + bytes)])
    }
  }

  const INITIAL := State(map[], [], map[], {})

  datatype Operation =
    | Proceed
    // The operation at hand fails. A copy may have written and sent some of its chunk.
    | Fail(written: nat, delivered: nat)
    | Copy(size: nat)
    | Answer(response: Bytes)
    | NewTemp(suffix: nat)

  datatype Event =
    | Begin(t: Thread, req: Request)
    | Step(t: Thread, op: Operation)
    // Cleanup removes a cached response. It leaves the temporary files alone.
    | Evict(dir: string, key: string)
    | Kill(t: Thread)
    | Crash

  predicate Enabled(s: State, ev: Event) {
    match ev
    case Begin(t, req) => t !in s.jobs && Valid(req)
    // A temporary file is created under a name that is not in use.
    case Step(t, NewTemp(suffix)) => t in s.jobs && Temp(Directory(s.jobs[t].req), suffix) !in s.names
    case _ => true
  }

  function Chunk(bytes: Bytes, pos: nat, size: nat): Bytes
    requires pos <= |bytes|
  {
    bytes[pos..if pos + size <= |bytes| then pos + size else |bytes|]
  }

  function OpenStep(s: State, t: Thread, op: Operation): State
    requires t in s.jobs
  {
    var path := PathOf(s.jobs[t].req);
    match op
    case Proceed => if path in s.names then s.Goto(t, Replay(s.names[path], 0)) else s.Goto(t, AskUpstream)
    case Fail(_, _) => s.Goto(t, AskUpstream)
    case _ => s
  }

  function ReplayStep(s: State, t: Thread, inode: Inode, pos: nat, op: Operation): State
    requires t in s.jobs && inode < |s.data| && pos <= |s.data[inode]|
  {
    match op
    case Proceed => if pos == |s.data[inode]| then s.Goto(t, Done(Hit)) else s
    case Copy(size) =>
      var chunk := Chunk(s.data[inode], pos, size);
      s.Send(t, chunk, Replay(inode, pos + |chunk|))
    case Fail(_, delivered) => s.Send(t, Chunk(s.data[inode], pos, delivered), Done(Failed))
    case _ => s
  }

  /** What is read from the upstream goes to the file first, then to the client. */
  function TeeStep(s: State, t: Thread, body: Bytes, temp: Path, pos: nat, op: Operation): State
    requires t in s.jobs && pos <= |body| && temp in s.names && s.names[temp] < |s.data|
  {
    var inode := s.names[temp];
    match op
    case Proceed => if pos == |body| then s.Goto(t, Rename(body, temp)) else s
    case Copy(size) =>
      var chunk := Chunk(body, pos, size);
      s.(data := s.data[inode := s.data[inode] + chunk]).Send(t, chunk, Tee(body, temp, pos + |chunk|))
    case Fail(written, delivered) =>
      s.(data := s.data[inode := s.data[inode] + Chunk(body, pos, written)])
      .Send(t, Chunk(body, pos, delivered), RemoveTemp(temp, Failed))
    case _ => s
  }

  function StreamStep(s: State, t: Thread, body: Bytes, pos: nat, op: Operation): State
    requires t in s.jobs && pos <= |body|
  {
    match op
    case Proceed => if pos == |body| then s.Goto(t, Done(Miss)) else s
    case Copy(size) =>
      var chunk := Chunk(body, pos, size);
      s.Send(t, chunk, Stream(body, pos + |chunk|))
    case Fail(_, delivered) => s.Send(t, Chunk(body, pos, delivered), Done(Failed))
    case _ => s
  }

  ghost function StepJob(s: State, t: Thread, op: Operation): State
    requires t in s.jobs && JobOk(s, s.jobs[t]) && FilesOk(s)
  {
    var req := s.jobs[t].req;
    match s.jobs[t].pc
    case Open => OpenStep(s, t, op)
    case Replay(inode, pos) => ReplayStep(s, t, inode, pos, op)
    case AskUpstream => (
      match op
      case Answer(body) => s.(served := s.served + {(req, body)}).Goto(t, CreateTemp(body))
      case Fail(_, _) => s.Goto(t, Done(Failed))
      case _ => s)
    case CreateTemp(body) => (
      match op
      case NewTemp(suffix) =>
        var temp := Path.Temp(Directory(req), suffix);
        s.(names := s.names[temp := |s.data|], data := s.data + [[]]).Goto(t, Tee(body, temp, 0))
      case Fail(_, _) => s.Goto(t, Stream(body, 0))
      case _ => s)
    case Tee(body, temp, pos) => TeeStep(s, t, body, temp, pos, op)
    case Rename(body, temp) => (
      match op
      case Proceed => s.(names := (s.names - {temp})[PathOf(req) := s.names[temp]]).Goto(t, Done(Miss))
      case Fail(_, _) => s.Goto(t, RemoveTemp(temp, Miss))
      case _ => s)
    case RemoveTemp(temp, result) => (
      match op
      case Proceed => s.(names := s.names - {temp}).Goto(t, Done(result))
      case Fail(_, _) => s.Goto(t, Done(result))
      case _ => s)
    case Stream(body, pos) => StreamStep(s, t, body, pos, op)
    case Done(_) => s
  }

  ghost function Apply(s: State, ev: Event): State
    requires Ok(s)
  {
    match ev
    case Begin(t, req) => s.(jobs := s.jobs[t := Job(req, Open, [])])
    case Step(t, op) => if t in s.jobs then StepJob(s, t, op) else s
    case Evict(dir, key) => s.(names := s.names - {Final(dir, key)})
    case Kill(t) => s.(jobs := s.jobs - {t})
    case Crash => s.(jobs := map[])
  }

  // ----- Invariant -----

  /** The temporary file that a request still has to rename or remove. */
  function TempOf(job: Job): Option<Path> {
    match job.pc
    case Tee(_, temp, _) => Some(temp)
    case Rename(_, temp) => Some(temp)
    case RemoveTemp(temp, _) => Some(temp)
    case _ => None
  }

  predicate TempOk(s: State, temp: Path, written: Bytes) {
    temp.Temp? && temp in s.names && s.names[temp] < |s.data| && s.data[s.names[temp]] == written
  }

  /** The client has received the beginning of a complete answer, if anything. */
  ghost predicate Begun(s: State, job: Job) {
    job.sent == [] || exists body :: (job.req, body) in s.served && job.sent <= body
  }

  ghost predicate JobOk(s: State, job: Job) {
    && Valid(job.req)
    && match job.pc
       case Open => job.sent == []
       case Replay(inode, pos) =>
         && inode < |s.data| && pos <= |s.data[inode]|
         && job.sent == s.data[inode][..pos] && (job.req, s.data[inode]) in s.served
       case AskUpstream => job.sent == []
       case CreateTemp(body) => (job.req, body) in s.served && job.sent == []
       case Tee(body, temp, pos) =>
         pos <= |body| && TempOk(s, temp, body[..pos]) && job.sent == body[..pos] && (job.req, body) in s.served
       case Rename(body, temp) => TempOk(s, temp, body) && job.sent == body && (job.req, body) in s.served
       case RemoveTemp(temp, outcome) =>
         && temp.Temp? && temp in s.names
         && if outcome == Failed then Begun(s, job) else (job.req, job.sent) in s.served
       case Stream(body, pos) => pos <= |body| && job.sent == body[..pos] && (job.req, body) in s.served
       case Done(result) => if result == Failed then Begun(s, job) else (job.req, job.sent) in s.served
  }

  ghost predicate JobsOk(s: State) {
    forall t :: t in s.jobs ==> JobOk(s, s.jobs[t])
  }

  /** A file in a response's place holds a complete response to that very request. */
  ghost predicate FilesOk(s: State) {
    && (forall p :: p in s.names ==> s.names[p] < |s.data|)
    && (forall req: Request :: Valid(req) && PathOf(req) in s.names ==>
          (req, s.data[s.names[PathOf(req)]]) in s.served)
  }

  /** What is being replayed is not being written. */
  ghost predicate NotWritten(s: State, job: Job) {
    job.pc.Replay? ==> forall temp :: temp in s.names && temp.Temp? ==> s.names[temp] != job.pc.inode
  }

  predicate SameTemp(a: Job, b: Job) {
    TempOf(a).Some? && TempOf(a) == TempOf(b)
  }

  /** No file has two names and no temporary file two owners. */
  ghost predicate Separate(s: State) {
    && (forall p, q :: p in s.names && q in s.names && s.names[p] == s.names[q] ==> p == q)
    && (forall t, u :: t in s.jobs && u in s.jobs && SameTemp(s.jobs[t], s.jobs[u]) ==> t == u)
    && (forall t :: t in s.jobs ==> NotWritten(s, s.jobs[t]))
  }

  ghost predicate Ok(s: State) {
    JobsOk(s) && FilesOk(s) && Separate(s)
  }

  // ----- Preservation -----

  /** A step that touches no file. */
  lemma LocalStepOk(s: State, s': State, t: Thread)
    requires Ok(s) && t in s.jobs && t in s'.jobs && s' == s.(jobs := s.jobs[t := s'.jobs[t]], served := s'.served)
    requires s.served <= s'.served && JobOk(s', s'.jobs[t]) && NotWritten(s', s'.jobs[t])
    requires TempOf(s'.jobs[t]).Some? ==> TempOf(s'.jobs[t]) == TempOf(s.jobs[t])
    ensures Ok(s')
  {
    forall u | u in s'.jobs ensures JobOk(s', s'.jobs[u]) && NotWritten(s', s'.jobs[u]) {
      assert u != t ==> JobOk(s, s.jobs[u]) && NotWritten(s, s.jobs[u]);
    }
  }

  /** More is written to the temporary file of t. */
  lemma WriteOk(s: State, s': State, t: Thread, temp: Path, more: Bytes)
    requires Ok(s) && t in s.jobs && t in s'.jobs && TempOf(s.jobs[t]) == Some(temp) && temp in s.names
    requires s.names[temp] < |s.data|
    requires var inode := s.names[temp];
             s' == s.(jobs := s.jobs[t := s'.jobs[t]], data := s.data[inode := s.data[inode] + more])
    requires JobOk(s', s'.jobs[t]) && !s'.jobs[t].pc.Replay? && TempOf(s'.jobs[t]) == Some(temp)
    ensures Ok(s')
  {
    forall u | u in s'.jobs ensures JobOk(s', s'.jobs[u]) && NotWritten(s', s'.jobs[u]) {
      if u != t {
        assert JobOk(s, s.jobs[u]) && NotWritten(s, s.jobs[u]);
        assert !SameTemp(s.jobs[t], s.jobs[u]);
      }
    }
    assert JobOk(s, s.jobs[t]);
  }

  /** A new, empty temporary file for t. */
  lemma NewTempOk(s: State, s': State, t: Thread, body: Bytes, temp: Path)
    requires Ok(s) && t in s.jobs && s.jobs[t].pc == CreateTemp(body) && temp.Temp? && temp !in s.names
    requires s' == s.(names := s.names[temp := |s.data|], data := s.data + [[]]).Goto(t, Tee(body, temp, 0))
    ensures Ok(s')
  {
    forall u | u in s'.jobs ensures JobOk(s', s'.jobs[u]) && NotWritten(s', s'.jobs[u]) {
      assert JobOk(s, s.jobs[u]) && NotWritten(s, s.jobs[u]);
    }
    forall u | u in s.jobs && u != t ensures !SameTemp(s'.jobs[u], s'.jobs[t]) {
      assert JobOk(s, s.jobs[u]);
    }
  }

  /** A name goes away that no request holds any longer. */
  lemma UnlinkOk(s: State, s': State, path: Path)
    requires Ok(s) && s' == s.(names := s.names - {path})
    requires forall t :: t in s.jobs ==> TempOf(s.jobs[t]) != Some(path)
    ensures Ok(s')
  {
    forall u | u in s'.jobs ensures JobOk(s', s'.jobs[u]) && NotWritten(s', s'.jobs[u]) {
      assert JobOk(s, s.jobs[u]) && NotWritten(s, s.jobs[u]);
    }
  }

  /** A complete temporary file takes its place. Whatever was there loses its name, and
      whoever is replaying that goes on with the old file. */
  lemma PublishOk(s: State, t: Thread, body: Bytes, temp: Path)
    requires Ok(s) && t in s.jobs && s.jobs[t].pc == Rename(body, temp)
    ensures Ok(StepJob(s, t, Proceed))
  {
    var s', req := StepJob(s, t, Proceed), s.jobs[t].req;
    assert JobOk(s, s.jobs[t]);
    forall u | u in s'.jobs ensures JobOk(s', s'.jobs[u]) && NotWritten(s', s'.jobs[u]) {
      if u != t {
        assert JobOk(s, s.jobs[u]) && NotWritten(s, s.jobs[u]);
        assert !SameTemp(s.jobs[t], s.jobs[u]);
      }
    }
    forall other: Request | Valid(other) && PathOf(other) in s'.names
      ensures (other, s'.data[s'.names[PathOf(other)]]) in s'.served
    {
      KeyIdentifiesRequest(other, req);
    }
  }

  lemma UnlinkTempOk(s: State, t: Thread, temp: Path, outcome: Result)
    requires Ok(s) && t in s.jobs && s.jobs[t].pc == RemoveTemp(temp, outcome)
    ensures Ok(StepJob(s, t, Proceed))
  {
    assert JobOk(s, s.jobs[t]);
    var between := s.Goto(t, Done(outcome));
    LocalStepOk(s, between, t);
    forall u | u in between.jobs ensures TempOf(between.jobs[u]) != Some(temp) {
      assert u != t ==> !SameTemp(s.jobs[t], s.jobs[u]);
    }
    UnlinkOk(between, StepJob(s, t, Proceed), temp);
  }

  lemma OpenOk(s: State, t: Thread, op: Operation)
    requires Ok(s) && t in s.jobs && s.jobs[t].pc.Open?
    ensures Ok(StepJob(s, t, op))
  {
    var path := PathOf(s.jobs[t].req);
    assert JobOk(s, s.jobs[t]);
    if op.Proceed? || op.Fail? {
      LocalStepOk(s, StepJob(s, t, op), t);
    }
  }

  lemma ReplayOk(s: State, t: Thread, op: Operation)
    requires Ok(s) && t in s.jobs && s.jobs[t].pc.Replay?
    ensures Ok(StepJob(s, t, op))
  {
    assert JobOk(s, s.jobs[t]) && NotWritten(s, s.jobs[t]);
    var file := s.data[s.jobs[t].pc.inode];
    assert file[..|file|] == file;
    assert op.Fail? ==> StepJob(s, t, op).jobs[t].sent <= file;
    LocalStepOk(s, StepJob(s, t, op), t);
  }

  lemma StreamOk(s: State, t: Thread, op: Operation)
    requires Ok(s) && t in s.jobs && s.jobs[t].pc.Stream?
    ensures Ok(StepJob(s, t, op))
  {
    assert JobOk(s, s.jobs[t]);
    var body := s.jobs[t].pc.body;
    assert body[..|body|] == body;
    assert op.Fail? ==> StepJob(s, t, op).jobs[t].sent <= body;
    LocalStepOk(s, StepJob(s, t, op), t);
  }

  lemma TeeOk(s: State, t: Thread, op: Operation)
    requires Ok(s) && t in s.jobs && s.jobs[t].pc.Tee?
    ensures Ok(StepJob(s, t, op))
  {
    assert JobOk(s, s.jobs[t]);
    var Tee(body, temp, pos) := s.jobs[t].pc;
    match op
    case Proceed => LocalStepOk(s, StepJob(s, t, op), t);
    case Copy(size) =>
      var chunk := Chunk(body, pos, size);
      assert body[..pos] + chunk == body[..pos + |chunk|];
      WriteOk(s, StepJob(s, t, op), t, temp, chunk);
    case Fail(written, _) =>
      assert StepJob(s, t, op).jobs[t].sent <= body;
      WriteOk(s, StepJob(s, t, op), t, temp, Chunk(body, pos, written));
    case _ =>
  }

  lemma AskUpstreamOk(s: State, t: Thread, op: Operation)
    requires Ok(s) && t in s.jobs && s.jobs[t].pc.AskUpstream?
    ensures Ok(StepJob(s, t, op))
  {
    assert JobOk(s, s.jobs[t]);
    LocalStepOk(s, StepJob(s, t, op), t);
  }

  lemma CreateTempOk(s: State, t: Thread, op: Operation)
    requires Ok(s) && t in s.jobs && s.jobs[t].pc.CreateTemp? && Enabled(s, Step(t, op))
    ensures Ok(StepJob(s, t, op))
  {
    assert JobOk(s, s.jobs[t]);
    if op.NewTemp? {
      NewTempOk(s, StepJob(s, t, op), t, s.jobs[t].pc.body, Path.Temp(Directory(s.jobs[t].req), op.suffix));
    } else {
      LocalStepOk(s, StepJob(s, t, op), t);
    }
  }

  lemma RenameOk(s: State, t: Thread, op: Operation)
    requires Ok(s) && t in s.jobs && s.jobs[t].pc.Rename?
    ensures Ok(StepJob(s, t, op))
  {
    assert JobOk(s, s.jobs[t]);
    if op.Proceed? {
      PublishOk(s, t, s.jobs[t].pc.body, s.jobs[t].pc.temp);
    } else {
      LocalStepOk(s, StepJob(s, t, op), t);
    }
  }

  lemma RemoveTempOk(s: State, t: Thread, op: Operation)
    requires Ok(s) && t in s.jobs && s.jobs[t].pc.RemoveTemp?
    ensures Ok(StepJob(s, t, op))
  {
    assert JobOk(s, s.jobs[t]);
    if op.Proceed? {
      UnlinkTempOk(s, t, s.jobs[t].pc.temp, s.jobs[t].pc.outcome);
    } else {
      LocalStepOk(s, StepJob(s, t, op), t);
    }
  }

  lemma StepJobOk(s: State, t: Thread, op: Operation)
    requires Ok(s) && t in s.jobs && Enabled(s, Step(t, op))
    ensures Ok(StepJob(s, t, op))
  {
    match s.jobs[t].pc
    case Open => OpenOk(s, t, op);
    case Replay(_, _) => ReplayOk(s, t, op);
    case AskUpstream => AskUpstreamOk(s, t, op);
    case CreateTemp(_) => CreateTempOk(s, t, op);
    case Tee(_, _, _) => TeeOk(s, t, op);
    case Rename(_, _) => RenameOk(s, t, op);
    case RemoveTemp(_, _) => RemoveTempOk(s, t, op);
    case Stream(_, _) => StreamOk(s, t, op);
    case Done(_) =>
  }

  lemma BeginOk(s: State, t: Thread, req: Request)
    requires Ok(s) && t !in s.jobs && Valid(req)
    ensures Ok(Apply(s, Begin(t, req)))
  {
    var s' := Apply(s, Begin(t, req));
    forall u | u in s'.jobs ensures JobOk(s', s'.jobs[u]) && NotWritten(s', s'.jobs[u]) {
      assert u != t ==> JobOk(s, s.jobs[u]) && NotWritten(s, s.jobs[u]);
    }
  }

  lemma KillOk(s: State, t: Thread)
    requires Ok(s)
    ensures Ok(Apply(s, Kill(t)))
  {
    var s' := Apply(s, Kill(t));
    forall u | u in s'.jobs ensures JobOk(s', s'.jobs[u]) && NotWritten(s', s'.jobs[u]) {
      assert JobOk(s, s.jobs[u]) && NotWritten(s, s.jobs[u]);
    }
  }

  lemma EvictOk(s: State, dir: string, key: string)
    requires Ok(s)
    ensures Ok(Apply(s, Evict(dir, key)))
  {
    forall t | t in s.jobs ensures TempOf(s.jobs[t]) != Some(Final(dir, key)) {
      assert JobOk(s, s.jobs[t]);
    }
    UnlinkOk(s, Apply(s, Evict(dir, key)), Final(dir, key));
  }

  lemma StepOk(s: State, ev: Event)
    requires Ok(s) && Enabled(s, ev)
    ensures Ok(Apply(s, ev))
  {
    match ev
    case Begin(t, req) => BeginOk(s, t, req);
    case Evict(dir, key) => EvictOk(s, dir, key);
    case Kill(t) => KillOk(s, t);
    case Crash =>
    case Step(t, op) =>
      if t in s.jobs {
        StepJobOk(s, t, op);
      }
  }

  // ----- Every run -----

  ghost predicate Legal(run: seq<Event>)
    decreases |run|, 0
  {
    run == [] ||
    (Legal(run[..|run| - 1]) && Enabled(After(run[..|run| - 1]), run[|run| - 1]))
  }

  ghost function After(run: seq<Event>): (s: State)
    requires Legal(run)
    ensures Ok(s)
    decreases |run|, 1
  {
    if run == [] then INITIAL
    else
      var before, ev := After(run[..|run| - 1]), run[|run| - 1];
      StepOk(before, ev);
      Apply(before, ev)
  }

  /** A file in the place of a request's response holds a complete upstream answer to that
      owner, repository and command. */
  lemma CachedFilesAreComplete(run: seq<Event>, req: Request)
    requires Legal(run) && Valid(req) && PathOf(req) in After(run).names
    ensures var s := After(run);
            && s.names[PathOf(req)] < |s.data|
            && (req, s.data[s.names[PathOf(req)]]) in s.served
  {
    assert FilesOk(After(run));
  }

  /** A request that ends well, from the cache or from the upstream, has sent a complete
      upstream answer to that very request, and nothing else. */
  lemma RepliesAreComplete(run: seq<Event>, t: Thread)
    requires Legal(run) && t in After(run).jobs
    requires After(run).jobs[t].pc in {Done(Hit), Done(Miss)}
    ensures var s := After(run); (s.jobs[t].req, s.jobs[t].sent) in s.served
  {
    assert JobOk(After(run), After(run).jobs[t]);
  }

  /** And whether it ended well or not, a client has never been sent anything but the
      beginning of one. */
  lemma RepliesBeginRight(run: seq<Event>, t: Thread)
    requires Legal(run) && t in After(run).jobs
    ensures Begun(After(run), After(run).jobs[t])
  {
    assert JobOk(After(run), After(run).jobs[t]);
  }

  /** A response that has been published is there for the next request of its kind: it
      asks no upstream and replays the same bytes. */
  lemma PublishedIsReplayed(s: State, published: State, t: Thread, u: Thread, body: Bytes, temp: Path)
    requires Ok(s) && t in s.jobs && s.jobs[t].pc == Rename(body, temp)
    requires published == Apply(s, Step(t, Proceed)) && Ok(published)
    requires u in s.jobs && s.jobs[u].pc == Open && s.jobs[u].req == s.jobs[t].req
    ensures published.jobs[t].pc == Done(Miss) && published.jobs[t].sent == body
    ensures var s' := Apply(published, Step(u, Proceed));
            s'.jobs[u].pc.Replay? && s'.jobs[u].pc.pos == 0 && s'.data[s'.jobs[u].pc.inode] == body
  {
    assert JobOk(s, s.jobs[t]);
  }
}
