/** How a request to the response cache (internal/gitcache/handler.go) ends when its own
    operations work and nobody interferes, and what it leaves when its copy fails. */
module ResponseCacheUndisturbed {
  import opened Prelude
  import opened ResponseCache

  /** The operations that a copy has left, with chunks of at least one byte. */
  ghost function Left(s: State, t: Thread): nat
    requires Ok(s) && t in s.jobs
  {
    assert JobOk(s, s.jobs[t]);
    match s.jobs[t].pc
    case Replay(inode, pos) => |s.data[inode]| - pos + 1
    case Tee(body, _, pos) => |body| - pos + 3
    case Rename(_, _) => 2
    case RemoveTemp(_, _) => 1
    case Stream(body, pos) => |body| - pos + 1
    case _ => 0
  }

  /** Copy a chunk of `size` bytes as long as there is something to copy, and go on then. */
  ghost function Next(s: State, t: Thread, size: nat): Operation
    requires Ok(s) && t in s.jobs
  {
    assert JobOk(s, s.jobs[t]);
    match s.jobs[t].pc
    case Replay(inode, pos) => if pos < |s.data[inode]| then Copy(size) else Proceed
    case Tee(body, _, pos) => if pos < |body| then Copy(size) else Proceed
    case Stream(body, pos) => if pos < |body| then Copy(size) else Proceed
    case _ => Proceed
  }

  ghost function Advance(s: State, t: Thread, size: nat): (s': State)
    requires Ok(s) && t in s.jobs
    ensures Ok(s') && t in s'.jobs
  {
    StepJobOk(s, t, Next(s, t, size));
    StepJob(s, t, Next(s, t, size))
  }

  lemma Progress(s: State, t: Thread, size: nat)
    requires Ok(s) && t in s.jobs && size > 0 && Left(s, t) > 0
    ensures Left(Advance(s, t, size), t) < Left(s, t)
  {
    hide Ok;
    hide Advance;
    match s.jobs[t].pc
    case Replay(inode, pos) => ReplayChunk(s, t, size, inode, pos);
    case Tee(body, temp, pos) =>
      TeeBelow(s, t);
      if pos < |body| {
        TeeChunk(s, t, size, body, temp, pos);
      } else {
        TeeEnd(s, t, size, body, temp);
      }
    case Rename(body, temp) => RenameEnd(s, t, size, body, temp);
    case RemoveTemp(_, _) => RemovesTemp(s, t, size);
    case Stream(body, pos) => StreamChunk(s, t, size, body, pos);
    case _ =>
  }

  lemma TeeBelow(s: State, t: Thread)
    requires Ok(s) && t in s.jobs && s.jobs[t].pc.Tee?
    ensures s.jobs[t].pc.pos <= |s.jobs[t].pc.body|
  {
    assert JobOk(s, s.jobs[t]);
  }

  /** Runs the copy of a request to its end. */
  ghost function Alone(s: State, t: Thread, size: nat): (s': State)
    requires Ok(s) && t in s.jobs && size > 0
    ensures Ok(s') && t in s'.jobs
    decreases Left(s, t)
  {
    if Left(s, t) == 0 then s
    else
      Progress(s, t, size);
      Alone(Advance(s, t, size), t, size)
  }

  lemma Once(s: State, t: Thread, size: nat)
    requires Ok(s) && t in s.jobs && size > 0
    ensures Left(s, t) > 0 ==> Left(Advance(s, t, size), t) < Left(s, t)
    ensures Left(s, t) > 0 ==> Alone(s, t, size) == Alone(Advance(s, t, size), t, size)
    ensures Left(s, t) == 0 ==> Alone(s, t, size) == s
    ensures s.jobs[t].pc.Done? <==> Left(s, t) == 0 && !s.jobs[t].pc.Open? && !s.jobs[t].pc.AskUpstream?
                                    && !s.jobs[t].pc.CreateTemp?
  {
    assert JobOk(s, s.jobs[t]);
    if Left(s, t) > 0 {
      Progress(s, t, size);
    }
  }

  function Min(a: nat, b: nat): nat {
    if a <= b then a else b
  }

  lemma TeeChunk(s: State, t: Thread, size: nat, body: Bytes, temp: Path, pos: nat)
    requires Ok(s) && t in s.jobs && size > 0 && s.jobs[t].pc == Tee(body, temp, pos) && pos < |body|
    ensures temp in s.names && s.names[temp] < |s.data|
    ensures var pos' := Min(pos + size, |body|);
            Advance(s, t, size) ==
            s.(data := s.data[s.names[temp] := body[..pos']],
               jobs := s.jobs[t := Job(s.jobs[t].req, Tee(body, temp, pos'), body[..pos'])])
  {
    assert JobOk(s, s.jobs[t]);
    hide JobOk;
    hide Separate;
    var pos' := Min(pos + size, |body|);
    assert Chunk(body, pos, size) == body[pos..pos'];
    assert body[..pos] + body[pos..pos'] == body[..pos'];
  }

  lemma TeeEnd(s: State, t: Thread, size: nat, body: Bytes, temp: Path)
    requires Ok(s) && t in s.jobs && size > 0 && s.jobs[t].pc == Tee(body, temp, |body|)
    ensures temp in s.names && s.names[temp] < |s.data| && s.data[s.names[temp]] == body
    ensures Advance(s, t, size) == s.Goto(t, Rename(body, temp)) && s.jobs[t].sent == body
  {
    assert JobOk(s, s.jobs[t]);
    assert body[..|body|] == body;
  }

  lemma RenameEnd(s: State, t: Thread, size: nat, body: Bytes, temp: Path)
    requires Ok(s) && t in s.jobs && size > 0 && s.jobs[t].pc == Rename(body, temp)
    ensures temp in s.names
    ensures Advance(s, t, size) ==
            s.(names := (s.names - {temp})[PathOf(s.jobs[t].req) := s.names[temp]]).Goto(t, Done(Miss))
  {
    assert JobOk(s, s.jobs[t]);
  }

  /** A copy to client and file sends the whole answer, and leaves it in its place. */
  lemma {:induction false} CopyIsPublished(s: State, t: Thread, size: nat, body: Bytes, temp: Path, pos: nat)
    requires Ok(s) && t in s.jobs && size > 0 && s.jobs[t].pc == Tee(body, temp, pos) && pos <= |body|
    ensures temp in s.names && s.names[temp] < |s.data|
    ensures Alone(s, t, size) ==
            State((s.names - {temp})[PathOf(s.jobs[t].req) := s.names[temp]], s.data[s.names[temp] := body],
                  s.jobs[t := Job(s.jobs[t].req, Done(Miss), body)], s.served)
    decreases |body| - pos
  {
    hide Ok;
    hide Advance;
    hide Left;
    hide Alone;
    var s1 := Advance(s, t, size);
    Once(s, t, size);
    if pos < |body| {
      TeeChunk(s, t, size, body, temp, pos);
      CopyIsPublished(s1, t, size, body, temp, Min(pos + size, |body|));
    } else {
      TeeEnd(s, t, size, body, temp);
      Once(s1, t, size);
      RenameEnd(s1, t, size, body, temp);
      Once(Advance(s1, t, size), t, size);
    }
  }

  lemma ReplayChunk(s: State, t: Thread, size: nat, inode: Inode, pos: nat)
    requires Ok(s) && t in s.jobs && size > 0 && s.jobs[t].pc == Replay(inode, pos)
    ensures inode < |s.data| && pos <= |s.data[inode]|
    ensures var file, pos' := s.data[inode], Min(pos + size, |s.data[inode]|);
            Advance(s, t, size) ==
            s.(jobs := s.jobs[t := if pos < |file| then Job(s.jobs[t].req, Replay(inode, pos'), file[..pos'])
                                   else Job(s.jobs[t].req, Done(Hit), file)])
  {
    assert JobOk(s, s.jobs[t]);
    hide JobOk;
    hide Separate;
    var file, pos' := s.data[inode], Min(pos + size, |s.data[inode]|);
    assert Chunk(file, pos, size) == file[pos..pos'];
    assert file[..pos] + file[pos..pos'] == file[..pos'] && file[..|file|] == file;
  }

  /** A replay sends the whole file and changes nothing else. */
  lemma {:induction false} ReplayIsWhole(s: State, t: Thread, size: nat, inode: Inode, pos: nat)
    requires Ok(s) && t in s.jobs && size > 0 && s.jobs[t].pc == Replay(inode, pos)
    ensures inode < |s.data|
    ensures Alone(s, t, size) == s.(jobs := s.jobs[t := Job(s.jobs[t].req, Done(Hit), s.data[inode])])
    decreases if inode < |s.data| then |s.data[inode]| - pos else 0
  {
    hide Ok;
    hide Advance;
    hide Left;
    hide Alone;
    var s1 := Advance(s, t, size);
    Once(s, t, size);
    ReplayChunk(s, t, size, inode, pos);
    if pos < |s.data[inode]| {
      ReplayIsWhole(s1, t, size, inode, Min(pos + size, |s.data[inode]|));
    } else {
      Once(s1, t, size);
    }
  }

  lemma StreamChunk(s: State, t: Thread, size: nat, body: Bytes, pos: nat)
    requires Ok(s) && t in s.jobs && size > 0 && s.jobs[t].pc == Stream(body, pos)
    ensures pos <= |body|
    ensures var pos' := Min(pos + size, |body|);
            Advance(s, t, size) ==
            s.(jobs := s.jobs[t := if pos < |body| then Job(s.jobs[t].req, Stream(body, pos'), body[..pos'])
                                   else Job(s.jobs[t].req, Done(Miss), body)])
  {
    assert JobOk(s, s.jobs[t]);
    hide JobOk;
    hide Separate;
    var pos' := Min(pos + size, |body|);
    assert Chunk(body, pos, size) == body[pos..pos'];
    assert body[..pos] + body[pos..pos'] == body[..pos'] && body[..|body|] == body;
  }

  lemma {:induction false} StreamIsWhole(s: State, t: Thread, size: nat, body: Bytes, pos: nat)
    requires Ok(s) && t in s.jobs && size > 0 && s.jobs[t].pc == Stream(body, pos)
    ensures Alone(s, t, size) == s.(jobs := s.jobs[t := Job(s.jobs[t].req, Done(Miss), body)])
    decreases |body| - pos
  {
    hide Ok;
    hide Advance;
    hide Left;
    hide Alone;
    var s1 := Advance(s, t, size);
    Once(s, t, size);
    StreamChunk(s, t, size, body, pos);
    if pos < |body| {
      StreamIsWhole(s1, t, size, body, Min(pos + size, |body|));
    } else {
      Once(s1, t, size);
    }
  }

  // ----- Whole requests -----

  ghost function Do(s: State, t: Thread, op: Operation): (s': State)
    requires Ok(s) && t in s.jobs && Enabled(s, Step(t, op))
    ensures Ok(s') && t in s'.jobs
  {
    StepJobOk(s, t, op);
    StepJob(s, t, op)
  }

  /** The request finds no file and has an answer. */
  ghost predicate Answered(s: State, t: Thread, body: Bytes, s': State) {
    && Ok(s) && t in s.jobs && s.jobs[t].pc == Open && PathOf(s.jobs[t].req) !in s.names
    && s' == Do(Do(s, t, Proceed), t, Answer(body))
  }

  lemma AnsweredIs(s: State, t: Thread, body: Bytes, s': State)
    requires Answered(s, t, body, s')
    ensures Ok(s')
    ensures s' == s.(jobs := s.jobs[t := Job(s.jobs[t].req, CreateTemp(body), [])],
                     served := s.served + {(s.jobs[t].req, body)})
  {
    assert JobOk(s, s.jobs[t]);
  }

  lemma Created(s: State, t: Thread, body: Bytes, suffix: nat)
    requires Ok(s) && t in s.jobs && s.jobs[t].pc == CreateTemp(body)
    requires Path.Temp(Directory(s.jobs[t].req), suffix) !in s.names
    ensures Enabled(s, Step(t, NewTemp(suffix)))
    ensures var temp := Path.Temp(Directory(s.jobs[t].req), suffix);
            Do(s, t, NewTemp(suffix)) ==
            s.(names := s.names[temp := |s.data|], data := s.data + [[]]).Goto(t, Tee(body, temp, 0))
  {
    assert JobOk(s, s.jobs[t]);
  }

  lemma CreatedIsCached(s: State, t: Thread, body: Bytes, suffix: nat, size: nat, s': State)
    requires Ok(s) && t in s.jobs && s.jobs[t].pc == CreateTemp(body) && size > 0
    requires Path.Temp(Directory(s.jobs[t].req), suffix) !in s.names
    requires Enabled(s, Step(t, NewTemp(suffix))) && s' == Alone(Do(s, t, NewTemp(suffix)), t, size)
    ensures s'.jobs == s.jobs[t := Job(s.jobs[t].req, Done(Miss), body)]
    ensures s'.names == s.names[PathOf(s.jobs[t].req) := |s.data|] && s'.data == s.data + [body]
  {
    hide Ok;
    hide Do;
    hide Alone;
    Created(s, t, body, suffix);
    var temp := Path.Temp(Directory(s.jobs[t].req), suffix);
    var created := Do(s, t, NewTemp(suffix));
    hide Enabled;
    CopyIsPublished(created, t, size, body, temp, 0);
    assert created.names - {temp} == s.names;
  }

  /** A miss that is left alone sends the upstream's answer and caches it, under its own name
      and no other: the next request of its kind is answered with it from the cache. */
  lemma MissIsCached(s: State, t: Thread, body: Bytes, answered: State, suffix: nat, size: nat, s': State)
    requires Answered(s, t, body, answered) && size > 0
    requires Path.Temp(Directory(s.jobs[t].req), suffix) !in s.names
    requires Ok(answered) && t in answered.jobs && Enabled(answered, Step(t, NewTemp(suffix)))
    requires s' == Alone(Do(answered, t, NewTemp(suffix)), t, size)
    ensures s'.jobs == s.jobs[t := Job(s.jobs[t].req, Done(Miss), body)]
    ensures s'.names == s.names[PathOf(s.jobs[t].req) := |s.data|] && s'.data == s.data + [body]
  {
    hide Ok;
    hide Do;
    hide Alone;
    hide Enabled;
    AnsweredIs(s, t, body, answered);
    hide Answered;
    CreatedIsCached(answered, t, body, suffix, size, s');
  }

  /** Where no temporary file can be created, the answer is sent all the same. */
  lemma MissIsStreamed(s: State, t: Thread, body: Bytes, answered: State, size: nat, failure: Operation, s': State)
    requires Answered(s, t, body, answered) && size > 0 && failure.Fail?
    requires Ok(answered) && t in answered.jobs && s' == Alone(Do(answered, t, failure), t, size)
    ensures s'.jobs == s.jobs[t := Job(s.jobs[t].req, Done(Miss), body)]
    ensures s'.names == s.names && s'.data == s.data
  {
    hide Ok;
    hide Do;
    hide Alone;
    AnsweredIs(s, t, body, answered);
    hide Answered;
    StreamsInstead(answered, t, body, failure);
    StreamIsWhole(Do(answered, t, failure), t, size, body, 0);
  }

  lemma StreamsInstead(s: State, t: Thread, body: Bytes, failure: Operation)
    requires Ok(s) && t in s.jobs && s.jobs[t].pc == CreateTemp(body) && failure.Fail?
    ensures Do(s, t, failure) == s.Goto(t, Stream(body, 0))
  {
    assert JobOk(s, s.jobs[t]);
  }

  /** A hit sends the cached file and asks nobody. */
  lemma HitIsReplayed(s: State, t: Thread, size: nat)
    requires Ok(s) && t in s.jobs && s.jobs[t].pc == Open && PathOf(s.jobs[t].req) in s.names && size > 0
    ensures s.names[PathOf(s.jobs[t].req)] < |s.data|
    ensures Alone(Do(s, t, Proceed), t, size) ==
            s.(jobs := s.jobs[t := Job(s.jobs[t].req, Done(Hit), s.data[s.names[PathOf(s.jobs[t].req)]])])
  {
    assert JobOk(s, s.jobs[t]);
    ReplayIsWhole(Do(s, t, Proceed), t, size, s.names[PathOf(s.jobs[t].req)], 0);
  }

  /** A copy that fails, on either side, leaves no file behind and caches nothing. */
  lemma FailureIsRemoved(s: State, t: Thread, size: nat, failure: Operation)
    requires Ok(s) && t in s.jobs && s.jobs[t].pc.Tee? && failure.Fail? && size > 0
    ensures var s' := Alone(Do(s, t, failure), t, size);
            && s'.jobs[t].pc == Done(Failed) && s'.names == s.names - {s.jobs[t].pc.temp}
            && s.jobs[t].pc.temp.Temp?
  {
    assert JobOk(s, s.jobs[t]);
    var s1 := Do(s, t, failure);
    assert s1.jobs[t].pc == RemoveTemp(s.jobs[t].pc.temp, Failed);
    RemovesTemp(s1, t, size);
    hide Ok;
    hide Do;
    hide Advance;
    hide Left;
    hide Alone;
    Once(s1, t, size);
    Once(Advance(s1, t, size), t, size);
  }

  /** A file that cannot be opened is asked for upstream, and an upstream that does not answer
      ends the request with nothing sent and nothing changed. */
  lemma OpenOrUpstreamFails(s: State, t: Thread, failure: Operation)
    requires Ok(s) && t in s.jobs && failure.Fail? && (s.jobs[t].pc.Open? || s.jobs[t].pc.AskUpstream?)
    ensures Do(s, t, failure) == s.Goto(t, if s.jobs[t].pc.Open? then AskUpstream else Done(Failed))
    ensures s.jobs[t].sent == []
  {
    assert JobOk(s, s.jobs[t]);
  }

  /** A rename that fails costs the cache its file, but the client nothing. */
  lemma RenameFails(s: State, t: Thread, size: nat, failure: Operation)
    requires Ok(s) && t in s.jobs && s.jobs[t].pc.Rename? && failure.Fail? && size > 0
    ensures Alone(Do(s, t, failure), t, size) == s.(names := s.names - {s.jobs[t].pc.temp}).Goto(t, Done(Miss))
    ensures s.jobs[t].sent == s.jobs[t].pc.body
  {
    hide Ok;
    hide Do;
    hide Advance;
    hide Left;
    hide Alone;
    GivesUpRename(s, t, failure);
    var s1 := Do(s, t, failure);
    RemovesTemp(s1, t, size);
    Once(s1, t, size);
    Once(Advance(s1, t, size), t, size);
  }

  lemma GivesUpRename(s: State, t: Thread, failure: Operation)
    requires Ok(s) && t in s.jobs && s.jobs[t].pc.Rename? && failure.Fail?
    ensures Do(s, t, failure) == s.Goto(t, RemoveTemp(s.jobs[t].pc.temp, Miss))
    ensures s.jobs[t].sent == s.jobs[t].pc.body
  {
    assert JobOk(s, s.jobs[t]);
  }

  lemma RemovesTemp(s: State, t: Thread, size: nat)
    requires Ok(s) && t in s.jobs && s.jobs[t].pc.RemoveTemp?
    ensures Left(s, t) > 0
    ensures Advance(s, t, size) ==
            s.(names := s.names - {s.jobs[t].pc.temp}).Goto(t, Done(s.jobs[t].pc.outcome))
  {
    assert JobOk(s, s.jobs[t]);
  }
}
