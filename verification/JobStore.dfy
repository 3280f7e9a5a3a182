/** The job store of `service/job_store.go` as an object: records in the heap, changed in
    place, and copied before they are handed out. Every method is tied to an operation of JobSpec. */
module JobStore {
  import opened Wrappers
  import JobSpec
  import Sorting

  /** A Go map: a reference to entries. */
  class Metadata {
    var entries: map<string, string>

    constructor (entries: map<string, string>)
      ensures this.entries == entries
    {
      this.entries := entries;
    }
  }

  class Artifact {
    var it: JobSpec.Artifact

    constructor (it: JobSpec.Artifact)
      ensures this.it == it
    {
      this.it := it;
    }
  }

  /** The Go struct: plain fields, the finishing time, and two references to mutable objects. */
  datatype JobStruct = JobStruct(info: JobSpec.Info, metadata: Metadata?, finishedAt: Option<int>, artifact: Artifact?)
  {
    function Value(): JobSpec.Job
      reads metadata, artifact
    {
      JobSpec.Job(info, MetadataValue(metadata), finishedAt, ArtifactValue(artifact))
    }

    ghost function Parts(): set<object> {
      (if metadata == null then {} else {metadata}) + (if artifact == null then {} else {artifact})
    }

    /** Every mutable object a holder of this struct can reach lies in r. */
    ghost predicate Within(r: set<object>) {
      && (metadata != null ==> metadata in r)
      && (artifact != null ==> artifact in r)
    }

    /** No mutable object can be reached from both structs. */
    ghost predicate Apart(other: JobStruct) {
      && (metadata != null ==> metadata != other.metadata)
      && (artifact != null ==> artifact != other.artifact)
    }
  }

  /** Every mutable object the struct can reach was allocated since. */
  twostate predicate AllNew(new it: JobStruct) {
    && (it.metadata != null ==> fresh(it.metadata))
    && (it.artifact != null ==> fresh(it.artifact))
  }

  function MetadataValue(m: Metadata?): map<string, string>
    reads m
  {
    if m == null then map[] else m.entries
  }

  function ArtifactValue(a: Artifact?): Option<JobSpec.Artifact>
    reads a
  {
    if a == null then None else Some(a.it)
  }

  ghost predicate Submap(m: map<string, Job>, n: map<string, Job>) {
    forall k | k in m :: k in n && m[k] == n[k]
  }

  /** `*Job` */
  class Job {
    var it: JobStruct

    constructor (it: JobStruct)
      ensures this.it == it
    {
      this.it := it;
    }
  }

  /** An empty map is copied to nil, which reads the same. */
  method CloneMetadata(src: Metadata?) returns (dst: Metadata?)
    ensures dst != null ==> fresh(dst)
    ensures MetadataValue(dst) == MetadataValue(src)
  {
    if src == null || |src.entries| == 0 {
      dst := null;
    } else {
      dst := new Metadata(src.entries);
    }
  }

  /** The copy says the same, and everything it can reach is new. */
  method CloneJob(job: JobStruct) returns (copy: JobStruct)
    ensures copy.Value() == job.Value() && AllNew(copy)
  {
    var metadata := CloneMetadata(job.metadata);
    var artifact: Artifact? := null;
    if job.artifact != null {
      artifact := new Artifact(job.artifact.it);
    }
    copy := job.(metadata := metadata, artifact := artifact);
  }

  /** The fields set by `finish`, one after the other. */
  method FinishStruct(job: JobStruct, status: JobSpec.Status, message: string, details: string,
                      artifact: Artifact?, now: int)
    returns (it: JobStruct)
    ensures it.Value() == JobSpec.Finished(job.Value(), status, message, details, ArtifactValue(artifact), now)
    ensures it.info.id == job.info.id
  {
    var info := job.info.(status := status, message := message);
    if status == JobSpec.Failed {
      info := info.(error := message);
    }
    if details != "" {
      info := info.(details := details);
    }
    it := job.(info := info.(updatedAt := now), finishedAt := Some(now));
    if artifact != null {
      it := it.(artifact := artifact);
    }
  }

  class JobStore {
    var jobs: map<string, Job>
    var order: seq<string>
    var counter: nat
    /** The jobs passed to the clean-up function so far, as they were then. */
    var cleaned: seq<JobSpec.Job>

    /** What the stored structs say; `Valid` ties it to them. */
    ghost var table: map<string, JobSpec.Job>

    /** The stored jobs and the mutable objects behind them. */
    ghost var Repr: set<object>

    ghost predicate Valid()
      reads this, Repr
    {
      && jobs.Keys == table.Keys
      && (forall id | id in jobs ::
            && jobs[id] in Repr && jobs[id].it.Within(Repr)
            && jobs[id].it.info.id == id && jobs[id].it.Value() == table[id])
    }

    ghost function View(): JobSpec.Store
      reads this
    {
      JobSpec.Store(table, order, cleaned)
    }

    constructor ()
      ensures Valid() && View() == JobSpec.EMPTY && counter == 0
    {
      jobs, order, counter, cleaned, table, Repr := map[], [], 0, [], map[], {};
    }

    /** The atomic increment at the head of `Start`. */
    method Draw() returns (ticket: nat)
      requires Valid()
      modifies this`counter
      ensures Valid() && View() == old(View())
      ensures ticket == counter == old(counter) + 1
    {
      counter := counter + 1;
      ticket := counter;
    }

    /** The rest of `Start`. The job handed back shares no object with the one stored, nor does
        the stored one with the metadata of the caller. */
    method Commit(ticket: nat, r: JobSpec.Request, metadata: Metadata?, now: int) returns (copy: Job)
      requires Valid() && MetadataValue(metadata) == r.metadata
      modifies this`jobs, this`order, this`cleaned, this`table, this`Repr
      ensures Valid()
      ensures var job := JobSpec.NewJob(JobSpec.JobId(now / JobSpec.NANOS_PER_SECOND, ticket), r, now);
              View() == JobSpec.Insert(old(View()), job) && copy.it.Value() == job
      ensures fresh(copy) && AllNew(copy.it)
      ensures var id := JobSpec.JobId(now / JobSpec.NANOS_PER_SECOND, ticket);
              id in jobs ==> copy != jobs[id] && copy.it.Apart(jobs[id].it) && AllNew(jobs[id].it)
    {
      var id := JobSpec.JobId(now / JobSpec.NANOS_PER_SECOND, ticket);
      var own := CloneMetadata(metadata);
      var info := JobSpec.Info(id, r.kind, r.target, r.database, JobSpec.Running, r.message, "", "", now, now, now);
      var it := JobStruct(info, own, None, null);
      var clone := CloneJob(it);
      copy := new Job(clone);
      var job := new Job(it);
      PutNew(job);
      TrimLocked();
    }

    /** Enters a new job at the head of the table. */
    method PutNew(job: Job)
      requires Valid()
      modifies this`jobs, this`order, this`table, this`Repr
      ensures Valid() && jobs == old(jobs)[job.it.info.id := job]
      ensures View() == JobSpec.Store(old(View()).jobs[job.it.info.id := job.it.Value()],
                                      [job.it.info.id] + old(order), old(cleaned))
    {
      jobs := jobs[job.it.info.id := job];
      order := [job.it.info.id] + order;
      table := table[job.it.info.id := job.it.Value()];
      Repr := Repr + {job} + job.it.Parts();
    }

    method TrimLocked()
      requires Valid()
      modifies this`jobs, this`order, this`cleaned, this`table, this`Repr
      ensures Valid() && View() == JobSpec.Trim(old(View()))
      ensures Submap(jobs, old(jobs))
    {
      while |order| > JobSpec.MAX_JOBS
        invariant Submap(jobs, old(jobs))
        invariant Valid() && JobSpec.Trim(View()) == JobSpec.Trim(old(View()))
        decreases |order|
      {
        DropLast();
      }
    }

    method DropLast()
      requires Valid() && |order| > JobSpec.MAX_JOBS
      modifies this`jobs, this`order, this`cleaned, this`table, this`Repr
      ensures Valid() && |order| == old(|order|) - 1 && Submap(jobs, old(jobs))
      ensures JobSpec.Trim(View()) == JobSpec.Trim(old(View()))
    {
      ghost var before := View();
      var last := order[|order| - 1];
      order := order[..|order| - 1];
      if last in jobs {
        cleaned := cleaned + [jobs[last].it.Value()];
        jobs := jobs - {last};
        table := table - {last};
        assert View() == JobSpec.Store(before.jobs - {last}, before.order[..|before.order| - 1],
                                       before.cleaned + [before.jobs[last]]);
      } else {
        assert View() == JobSpec.Store(before.jobs, before.order[..|before.order| - 1], before.cleaned);
      }
    }

    /** Overwrites the struct of one stored job. */
    method Put(id: string, it: JobStruct)
      requires Valid() && id in jobs && it.info.id == id
      modifies jobs[id], this`table, this`Repr
      ensures Valid()
      ensures View() == old(View()).(jobs := old(table)[id := it.Value()])
    {
      var job := jobs[id];
      assert forall k | k in jobs && k != id :: jobs[k] != job;
      job.it := it;
      table := table[id := it.Value()];
      Repr := Repr + it.Parts();
      forall k | k in jobs
        ensures jobs[k] in Repr && jobs[k].it.Within(Repr) && jobs[k].it.info.id == k && jobs[k].it.Value() == table[k]
      {
        if k != id {
          assert jobs[k].it == old(jobs[k].it);
          assert old(jobs[k].it.Value()) == table[k];
        }
      }
    }

    method Update(id: string, message: string, details: string, now: int)
      requires Valid()
      modifies jobs.Values, this`table, this`Repr
      ensures Valid() && View() == JobSpec.Update(old(View()), id, message, details, now)
    {
      if id !in jobs {
        return;
      }
      var info := jobs[id].it.info;
      if message != "" {
        info := info.(message := message);
      }
      if details != "" {
        info := info.(details := details);
      }
      Put(id, jobs[id].it.(info := info.(updatedAt := now)));
    }

    /** `finish`. The artifact given by the caller is stored as it is, not copied. */
    method Finish(id: string, status: JobSpec.Status, message: string, details: string, artifact: Artifact?, now: int)
      requires Valid()
      modifies jobs.Values, this`table, this`Repr
      ensures Valid()
      ensures View() == JobSpec.Finish(old(View()), id, status, message, details, ArtifactValue(artifact), now)
    {
      if id !in jobs {
        return;
      }
      var it := FinishStruct(jobs[id].it, status, message, details, artifact, now);
      Put(id, it);
    }

    method Get(id: string) returns (copy: Job?)
      requires Valid()
      ensures copy == null <==> id !in View().jobs
      ensures copy != null ==>
                copy.it.Value() == View().jobs[id] && fresh(copy) && AllNew(copy.it)
    {
      if id !in jobs {
        return null;
      }
      var clone := CloneJob(jobs[id].it);
      copy := new Job(clone);
    }

    /** The loop of `List`: copies of the first `max` matching jobs. The source leaves the
        loop by `break` when the slice is full. */
    method Collect(kind: string, max: nat) returns (found: seq<JobStruct>)
      requires Valid() && max > 0
      ensures var all := JobSpec.Matching(table, order, kind);
              Mirrors(found, all[..JobSpec.Min(|all|, max)])
      ensures forall k | 0 <= k < |found| :: AllNew(found[k])
    {
      found := [];
      ghost var values: seq<JobSpec.Job> := [];
      var i := 0;
      while i < |order| && |found| < max
        invariant 0 <= i <= |order| && |found| == |values| <= max
        invariant values == JobSpec.Matching(table, order[..i], kind)
        invariant forall k | 0 <= k < |found| :: AllNew(found[k]) && found[k].Value() == values[k]
      {
        var id := order[i];
        assert order[..i + 1][..i] == order[..i];
        i := i + 1;
        if id in jobs && (kind == "" || jobs[id].it.info.kind == kind) {
          var copy := CloneJob(jobs[id].it);
          found, values := found + [copy], values + [table[id]];
        }
      }
      MatchingGrows(table, order, kind, i);
      if i == |order| { assert order[..i] == order; }
    }

    /** `List`: the returned slice holds copies, and sorting moves them around. */
    method List(kind: string, limit: int) returns (result: seq<JobStruct>)
      requires Valid()
      ensures Mirrors(result, JobSpec.List(View(), kind, limit))
      ensures forall i | 0 <= i < |result| :: AllNew(result[i])
    {
      var found := Collect(kind, JobSpec.Limit(limit));
      result := Sorting.SortSlice(found, NewerFirst);
      ghost var all := JobSpec.Matching(table, order, kind);
      SortMirrors(found, all[..JobSpec.Min(|all|, JobSpec.Limit(limit))]);
    }
  }

  const NewerFirst: (JobStruct, JobStruct) -> bool :=
    (a: JobStruct, b: JobStruct) => a.info.createdAt > b.info.createdAt

  /** The structs xs say what the values vs are. */
  ghost predicate Mirrors(xs: seq<JobStruct>, vs: seq<JobSpec.Job>)
    reads set i | 0 <= i < |xs| :: xs[i].metadata
    reads set i | 0 <= i < |xs| :: xs[i].artifact
  {
    |xs| == |vs| && forall i | 0 <= i < |xs| :: xs[i].Value() == vs[i]
  }

  /** Matches found in a first part of the table are the first matches. */
  lemma {:induction false} MatchingGrows(jobs: map<string, JobSpec.Job>, order: seq<string>, kind: string, i: nat)
    requires i <= |order|
    ensures JobSpec.Matching(jobs, order[..i], kind) <= JobSpec.Matching(jobs, order, kind)
    decreases |order|
  {
    if i < |order| {
      MatchingGrows(jobs, order[..|order| - 1], kind, i);
      assert order[..|order| - 1][..i] == order[..i];
    } else {
      assert order[..i] == order;
    }
  }

  lemma {:induction false} InsertMirrors(xs: seq<JobStruct>, vs: seq<JobSpec.Job>, x: JobStruct)
    requires Mirrors(xs, vs)
    ensures Mirrors(Sorting.InsertLast(xs, x, NewerFirst), Sorting.InsertLast(vs, x.Value(), JobSpec.NewerFirst))
    ensures forall i | 0 <= i <= |xs| ::
              Sorting.InsertLast(xs, x, NewerFirst)[i] in xs || Sorting.InsertLast(xs, x, NewerFirst)[i] == x
  {
    if xs != [] && NewerFirst(x, xs[|xs| - 1]) {
      InsertMirrors(xs[..|xs| - 1], vs[..|vs| - 1], x);
    }
  }

  /** Sorting copies and sorting what they say is the same. */
  lemma {:induction false} SortMirrors(xs: seq<JobStruct>, vs: seq<JobSpec.Job>)
    requires Mirrors(xs, vs)
    ensures Mirrors(Sorting.StableSort(xs, NewerFirst), Sorting.StableSort(vs, JobSpec.NewerFirst))
    ensures forall i | 0 <= i < |Sorting.StableSort(xs, NewerFirst)| :: Sorting.StableSort(xs, NewerFirst)[i] in xs
  {
    if xs == [] {
    } else {
      SortMirrors(xs[..|xs| - 1], vs[..|vs| - 1]);
      InsertMirrors(Sorting.StableSort(xs[..|xs| - 1], NewerFirst),
                    Sorting.StableSort(vs[..|vs| - 1], JobSpec.NewerFirst), xs[|xs| - 1]);
    }
  }
}
