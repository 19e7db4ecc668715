/**
 * csh's job table: the processes the shell knows, the rings that join the
 * processes of a job, the current and previous job, and the job numbers.
 */
module Jobs {
  import opened Ring
  import opened DirStack

  const BIGINDEX := 9

  class Process {
    var friends: Process
    var cwd: Directory?
    var index: nat
    var pid: nat
    var jobid: nat
    var running: bool
    var stopped: bool
    var reported: bool
    var foregnd: bool
    var needNote: bool
    ghost const leader: Process        // the leader of its job, for good
    ghost const pos: nat               // its place in the leader's ring
    ghost var ring: seq<Process>       // of a leader: its job, from itself along friends

    // A running process that leads a new job.
    constructor Lead(pid: nat, foregnd: bool)
      ensures this.pid == this.jobid == pid && index == 0 && cwd == null && friends == this
      ensures leader == this && pos == 0 && ring == [this]
      ensures running && !stopped && !reported && this.foregnd == foregnd && !needNote
    {
      this.pid, this.jobid, this.index, this.cwd, this.friends := pid, pid, 0, null, this;
      this.running, this.stopped, this.reported, this.foregnd, this.needNote := true, false, false, foregnd, false;
      this.leader, this.pos, this.ring := this, 0, [this];
    }

    // A running process that joins the job of l.
    constructor Join(pid: nat, foregnd: bool, l: Process, ghost pos: nat)
      ensures this.pid == pid && jobid == l.pid && index == l.index && cwd == null && friends == l
      ensures leader == l && this.pos == pos
      ensures running && !stopped && !reported && this.foregnd == foregnd && !needNote
    {
      this.pid, this.jobid, this.index, this.cwd, this.friends := pid, l.pid, l.index, null, l;
      this.running, this.stopped, this.reported, this.foregnd, this.needNote := true, false, false, foregnd, false;
      this.leader, this.pos, this.ring := l, pos, [];
    }
  }

  // ----- the rings -----

  // Every process is in one ring, that of its leader, and in one place of it.
  ghost predicate Shaped(S: set<Process>)
    reads S`ring
  {
    (forall p {:trigger p.leader} | p in S :: p.leader in S && p.leader.leader == p.leader) &&
    (forall p {:trigger p.pos} | p in S :: p.pos < |p.leader.ring| && p.leader.ring[p.pos] == p) &&
    (forall l {:trigger l.ring} | l in S && l.leader == l :: l.pos == 0) &&
    (forall l, i {:trigger l.ring[i]} | l in S && l.leader == l && 0 <= i < |l.ring| ::
      l.ring[i] in S && l.ring[i].leader == l && l.ring[i].pos == i)
  }

  // The friends links are the rings.
  ghost predicate Friends(S: set<Process>)
    reads S`ring, S`friends
  {
    forall p {:trigger p.friends} | p in S ::
      p.leader in S && p.pos < |p.leader.ring| && p.friends == p.leader.ring[Nxt(p.pos, |p.leader.ring|)]
  }

  ghost predicate Circle(r: seq<Process>)
    reads r`friends
  {
    NoDup(r) && forall i {:trigger r[i].friends} | 0 <= i < |r| :: r[i].friends == r[Nxt(i, |r|)]
  }

  lemma CircleRotate(r: seq<Process>, k: nat)
    requires Circle(r) && k <= |r|
    ensures Circle(Rotate(r, k)) && forall x :: x in Rotate(r, k) <==> x in r
  {
    RotateNoDup(r, k);
    forall i | 0 <= i < |r| ensures Rotate(r, k)[i].friends == Rotate(r, k)[Nxt(i, |r|)] {
      RotatePlace(r, k, i);
    }
  }

  // The job of p, from p along friends.
  lemma JobFrom(S: set<Process>, p: Process) returns (r: seq<Process>)
    requires Shaped(S) && Friends(S) && p in S
    ensures Circle(r) && r != [] && r[0] == p
    ensures forall x :: x in r <==> x in S && x.leader == p.leader
    ensures forall i | 0 <= i < |r| :: r[i] in S
  {
    var l := p.leader;
    var ring := l.ring;
    assert forall i | 0 <= i < |ring| :: ring[i] in S && ring[i].pos == i && ring[i].leader == l;
    assert Circle(ring);
    assert forall x | x in S && x.leader == l :: x == ring[x.pos];
    CircleRotate(ring, p.pos);
    r := Rotate(ring, p.pos);
  }

  // Among the live processes the leaders are the ones whose pid is their job's id.
  ghost predicate LeadersShow(S: set<Process>)
    reads S`pid, S`jobid
  {
    forall p | p in S && p.pid != 0 :: p.pid == p.jobid <==> p.leader == p
  }

  // The state of a process that has just been started.
  ghost predicate Started(p: Process, foregnd: bool)
    reads p`running, p`stopped, p`reported, p`foregnd, p`needNote
  {
    p.running && !p.stopped && !p.reported && p.foregnd == foregnd && !p.needNote
  }

  // The processes of a job share its number, and its state of being flushed.
  ghost predicate Uniform(S: set<Process>)
    reads S`pid, S`index, S`jobid
  {
    (forall p {:trigger p.leader} | p in S ::
      p.leader in S && p.index == p.leader.index && p.jobid == p.leader.jobid > 0) &&
    (forall p | p in S :: p.pid == 0 <==> p.index == 0)
  }

  ghost predicate OtherPid(p: Process, q: Process)
    reads p`pid, q`pid
  {
    p != q && p.pid != 0 ==> p.pid != q.pid
  }

  ghost predicate PidsDiffer(S: set<Process>)
    reads S`pid
  {
    forall p, q {:trigger OtherPid(p, q)} | p in S && q in S :: OtherPid(p, q)
  }

  ghost predicate OtherIndex(p: Process, q: Process)
    reads p`index, q`index
  {
    p != q && p.index != 0 ==> p.index != q.index
  }

  // Live jobs have different numbers.
  ghost predicate Distinct(S: set<Process>)
    reads S`index
  {
    forall p, q {:trigger OtherIndex(p, q)} | p in S && p.leader == p && q in S && q.leader == q :: OtherIndex(p, q)
  }

  // max is the largest number in use.
  ghost predicate Largest(S: set<Process>, max: nat)
    reads S`index
  {
    (forall p | p in S :: p.index <= max) &&
    (max > 0 ==> exists p :: p in S && p.index == max)
  }

  // A process with that number, if any is in use.
  lemma TopProcess(S: set<Process>, max: nat) returns (top: Process?)
    requires Largest(S, max)
    ensures max > 0 ==> top != null && top in S && top.index == max
  {
    top := null;
    if max > 0 {
      var p :| p in S && p.index == max;
      top := p;
    }
  }

  ghost predicate LiveLeader(p: Process)
    reads p`pid
  {
    p.leader == p && p.pid != 0
  }

  // The current and previous jobs are different live jobs, and there is no previous
  // job without a current one.
  ghost predicate Chosen(S: set<Process>, cur: Process?, prev: Process?, job: Process?)
    reads S`pid
  {
    (cur != null ==> cur in S && LiveLeader(cur)) &&
    (prev != null ==> prev in S && LiveLeader(prev) && cur != null && prev != cur) &&
    (job != null ==> job in S && LiveLeader(job))
  }

  // ----- walking a job -----

  // `while (pp->p_pid != pp->p_jobid) pp = pp->p_friends`
  method LeaderOf(p: Process, ghost S: set<Process>) returns (l: Process)
    requires Shaped(S) && Friends(S) && LeadersShow(S) && p in S
    requires forall q | q in S && q.leader == p.leader :: q.pid != 0
    ensures l == p.leader
  {
    l := p;
    ghost var lead := p.leader;
    ghost var n := |lead.ring|;
    while l.pid != l.jobid
      invariant l in S && l.leader == lead
      decreases if l.pos == 0 then 0 else n - l.pos
    {
      assert l.friends == lead.ring[Nxt(l.pos, n)];
      l := l.friends;
    }
  }

  lemma CircleEnd(r: seq<Process>, i: nat)
    requires Circle(r) && i < |r|
    ensures r[i].friends == r[0] <==> i + 1 == |r|
    ensures i + 1 < |r| ==> r[i].friends == r[i + 1]
  {
  }

  // The states of a job's processes, taken together.
  method JobFlags(p: Process, ghost r: seq<Process>)
    returns (running: bool, stopped: bool, reported: bool, foregnd: bool)
    requires Circle(r) && r != [] && r[0] == p
    ensures running <==> exists j | 0 <= j < |r| :: r[j].running
    ensures stopped <==> exists j | 0 <= j < |r| :: r[j].stopped
    ensures reported <==> exists j | 0 <= j < |r| :: r[j].reported
    ensures foregnd <==> exists j | 0 <= j < |r| :: r[j].foregnd
  {
    ghost var i := 0;
    var np := p;
    running, stopped, reported, foregnd := false, false, false, false;
    while true
      invariant i < |r| && np == r[i]
      invariant running <==> exists j :: 0 <= j < i && r[j].running
      invariant stopped <==> exists j :: 0 <= j < i && r[j].stopped
      invariant reported <==> exists j :: 0 <= j < i && r[j].reported
      invariant foregnd <==> exists j :: 0 <= j < i && r[j].foregnd
      decreases |r| - i
    {
      CircleEnd(r, i);
      running := running || np.running;
      stopped := stopped || np.stopped;
      reported := reported || np.reported;
      foregnd := foregnd || np.foregnd;
      np := np.friends;
      i := i + 1;
      if np == p {
        break;
      }
    }
  }

  // What the other processes of pp's job are doing: some run, or their stop has been
  // reported; some are stopped; some process of the job is in the foreground.
  ghost predicate Busy(S: set<Process>, pp: Process)
    reads S`running, S`reported
  {
    exists q :: q in S && q.leader == pp.leader && q != pp && (q.running || q.reported)
  }

  ghost predicate Stopping(S: set<Process>, pp: Process)
    reads S`stopped
  {
    exists q :: q in S && q.leader == pp.leader && q != pp && q.stopped
  }

  ghost predicate Watched(S: set<Process>, pp: Process)
    reads S`foregnd
  {
    exists q :: q in S && q.leader == pp.leader && q.foregnd
  }

  // Every stopped process of the job has been reported.
  method MarkReported(p: Process, ghost r: seq<Process>)
    requires Circle(r) && r != [] && r[0] == p
    modifies r`reported
    ensures forall q | q in r :: q.reported == (old(q.reported) || q.stopped)
  {
    ghost var i := 0;
    var np := p;
    while true
      invariant i < |r| && np == r[i]
      invariant forall j | 0 <= j < |r| :: r[j].reported == (old(r[j].reported) || (j < i && r[j].stopped))
      decreases |r| - i
    {
      CircleEnd(r, i);
      if np.stopped {
        np.reported := true;
      }
      np := np.friends;
      i := i + 1;
      if np == p {
        break;
      }
    }
  }

  // The job is flagged for deletion.
  method ZeroJob(p: Process, ghost r: seq<Process>)
    requires Circle(r) && r != [] && r[0] == p
    modifies r`index, r`pid, r`needNote
    ensures forall q | q in r :: q.index == q.pid == 0 && !q.needNote
  {
    ghost var i := 0;
    var np := p;
    while true
      invariant i < |r| && np == r[i]
      invariant forall j | 0 <= j < i :: r[j].index == r[j].pid == 0 && !r[j].needNote
      decreases |r| - i
    {
      CircleEnd(r, i);
      np.index := 0;
      np.pid := 0;
      np.needNote := false;
      np := np.friends;
      i := i + 1;
      if np == p {
        break;
      }
    }
  }

  // The job is set going, in the foreground or the background.
  method StartJob(p: Process, foregnd: bool, ghost r: seq<Process>)
    requires Circle(r) && r != [] && r[0] == p
    modifies r`running, r`stopped, r`foregnd
    ensures forall q | q in r :: if old(q.running || q.stopped) then q.running && !q.stopped && q.foregnd == foregnd
      else !q.running && !q.stopped && q.foregnd == old(q.foregnd)
  {
    ghost var i := 0;
    var np := p;
    while true
      invariant i < |r| && np == r[i]
      invariant forall j | i <= j < |r| :: r[j].running == old(r[j].running) && r[j].stopped == old(r[j].stopped)
      invariant forall j | i <= j < |r| :: r[j].foregnd == old(r[j].foregnd)
      invariant forall j | 0 <= j < i :: if old(r[j].running || r[j].stopped)
        then r[j].running && !r[j].stopped && r[j].foregnd == foregnd
        else !r[j].running && !r[j].stopped && r[j].foregnd == old(r[j].foregnd)
      decreases |r| - i
    {
      CircleEnd(r, i);
      if np.running || np.stopped {
        np.running := true;
        np.stopped := false;
        np.foregnd := foregnd;
      }
      np := np.friends;
      i := i + 1;
      if np == p {
        break;
      }
    }
  }

  // ----- flushing a job -----

  ghost predicate Jobwise(S: set<Process>)
    reads S`ring, S`friends, S`pid, S`jobid, S`index
  {
    Shaped(S) && Friends(S) && LeadersShow(S) && Uniform(S) && PidsDiffer(S) && Distinct(S)
  }

  // The same as one fact, which is carried along whole and not taken apart at every use.
  ghost predicate Grouped(S: set<Process>)
    reads S`ring, S`friends, S`pid, S`jobid, S`index
  {
    Jobwise(S) == true
  }

  // The processes of one job are flushed together.
  lemma SameState(S: set<Process>, p: Process)
    requires Shaped(S) && Uniform(S) && p in S
    ensures forall q | q in S && q.leader == p.leader :: q.pid == 0 <==> p.pid == 0
  {
  }

  // The job of a live process is one ring of live processes with one leader, one number
  // and one id, and no process outside it has that number or that id.
  lemma OneRing(S: set<Process>, p: Process) returns (r: seq<Process>)
    requires Grouped(S) && p in S && p.pid != 0
    ensures Circle(r) && r != [] && r[0] == p
    ensures forall q | q in r :: q in S && q.pid != 0 && q.index == p.index && q.jobid == p.jobid
    ensures exists l :: l in r && l.pid == l.jobid && forall q | q in r && q != l :: q.pid != q.jobid
    ensures forall q | q in S && q !in r && q.pid != 0 :: q.index != p.index && q.jobid != p.jobid
  {
    r := JobFrom(S, p);
    SameState(S, p);
    var l := p.leader;
    assert l in r && l.pid == l.jobid && forall q | q in r && q != l :: q.pid != q.jobid;
    forall q | q in S && q !in r && q.pid != 0 ensures q.index != p.index && q.jobid != p.jobid {
      assert OtherIndex(l, q.leader) && OtherPid(l, q.leader);
    }
  }

  // Flags every process of l's job for deletion.
  method ZeroLed(l: Process, ghost S: set<Process>)
    requires Shaped(S) && Friends(S) && l in S && l.leader == l
    modifies S`index, S`pid, S`needNote
    ensures forall p | p in S && p.leader == l :: p.pid == p.index == 0 && !p.needNote
    ensures forall p | p in S && p.leader != l :: p.pid == old(p.pid) && p.index == old(p.index) && p.needNote == old(p.needNote)
  {
    ghost var r := JobFrom(S, l);
    ZeroJob(l, r);
  }

  method Discard(l: Process, ghost S: set<Process>)
    requires Grouped(S) && l in S && l.leader == l
    modifies S`index, S`pid, S`needNote
    ensures Grouped(S)
    ensures forall p | p in S && p.leader == l :: p.pid == p.index == 0 && !p.needNote
    ensures forall p | p in S && p.leader != l :: p.pid == old(p.pid) && p.index == old(p.index) && p.needNote == old(p.needNote)
  {
    ZeroLed(l, S);
  }

  // ----- a new process -----

  // pp leads a new job; its pid and number are not in use.
  lemma AddLeader(S: set<Process>, pp: Process)
    requires Grouped(S) && pp !in S
    requires pp.leader == pp && pp.pos == 0 && pp.ring == [pp] && pp.friends == pp
    requires pp.pid == pp.jobid > 0 && pp.index > 0
    requires forall q | q in S :: q.pid != pp.pid && q.index != pp.index
    ensures Grouped(S + {pp})
  {
    assert forall q | q in S :: q.leader != pp;
  }

  // The last process of l's ring: the one whose friend is l again.
  method LastFriend(l: Process, ghost S: set<Process>) returns (fp: Process)
    requires Shaped(S) && Friends(S) && l in S && l.leader == l
    ensures l.ring != [] && fp == l.ring[|l.ring| - 1]
  {
    fp := l;
    ghost var i := 0;
    while fp.friends != l
      invariant 0 <= i < |l.ring| && fp == l.ring[i]
      decreases |l.ring| - i
    {
      assert fp.friends == l.ring[Nxt(i, |l.ring|)];
      i := i + 1;
      fp := fp.friends;
    }
    assert fp.friends == l.ring[Nxt(i, |l.ring|)];
  }

  // pp is put between the last process of l's ring and l.
  method JoinRing(pp: Process, l: Process, ghost S: set<Process>)
    requires Shaped(S) && Friends(S) && l in S && l.leader == l && pp !in S
    requires pp.leader == l && pp.pos == |l.ring| && pp.friends == l
    modifies S`friends, l`ring
    ensures Shaped(S + {pp}) && Friends(S + {pp})
  {
    var fp := LastFriend(l, S);
    fp.friends := pp;
    l.ring := l.ring + [pp];
  }

  lemma AddFriend(S: set<Process>, pp: Process)
    requires LeadersShow(S) && Uniform(S) && PidsDiffer(S) && Distinct(S) && pp !in S
    requires pp.leader in S && pp.leader.leader == pp.leader && pp.leader.pid != 0
    requires pp.pid > 0 && pp.jobid == pp.leader.jobid == pp.leader.pid && pp.index == pp.leader.index
    requires forall q | q in S :: q.pid != pp.pid
    ensures LeadersShow(S + {pp}) && Uniform(S + {pp}) && PidsDiffer(S + {pp}) && Distinct(S + {pp})
  {
  }

  method MakeFriend(pid: nat, foregnd: bool, l: Process, ghost S: set<Process>) returns (pp: Process)
    requires Grouped(S) && l in S && LiveLeader(l) && pid > 0 && forall q | q in S :: q.pid != pid
    modifies S`friends, l`ring
    ensures fresh(pp) && Grouped(S + {pp}) && Started(pp, foregnd)
    ensures pp.pid == pid && pp.leader == l && pp.cwd == null && pp.index == l.index
  {
    pp := new Process.Join(pid, foregnd, l, |l.ring|);
    JoinRing(pp, l, S);
    AddFriend(S, pp);
  }

  method MakeLeader(pid: nat, foregnd: bool, i: nat, ghost S: set<Process>) returns (pp: Process)
    requires Grouped(S) && pid > 0 && i > 0 && forall q | q in S :: q.pid != pid && q.index != i
    ensures fresh(pp) && Grouped(S + {pp}) && Started(pp, foregnd)
    ensures pp.pid == pid && pp.leader == pp && pp.cwd == null && pp.index == i
  {
    pp := new Process.Lead(pid, foregnd);
    pp.index := i;
    AddLeader(S, pp);
  }

  ghost function LiveJobs(S: set<Process>): set<Process>
    reads S`pid
  {
    set p | p in S && p.leader == p && p.pid != 0
  }

  // Number k is in use.
  ghost predicate Uses(S: set<Process>, k: nat)
    reads S`index
  {
    exists p :: p in S && p.index == k
  }

  lemma {:induction false} Enough(T: set<Process>, n: nat)
    requires forall k | 1 <= k <= n :: Uses(T, k)
    ensures |T| >= n
  {
    if n > 0 {
      assert Uses(T, n);
      var p :| p in T && p.index == n;
      forall k | 1 <= k <= n - 1 ensures Uses(T - {p}, k) {
        assert Uses(T, k);
        var q :| q in T && q.index == k;
        assert q in T - {p};
      }
      Enough(T - {p}, n - 1);
    }
  }

  // If the numbers 1 to n are all in use, there are at least n live jobs.
  lemma NumbersCount(S: set<Process>, n: nat)
    requires Shaped(S) && Uniform(S) && forall k | 1 <= k <= n :: Uses(S, k)
    ensures |LiveJobs(S)| >= n
  {
    forall k | 1 <= k <= n ensures Uses(LiveJobs(S), k) {
      assert Uses(S, k);
      var p :| p in S && p.index == k;
      assert p.leader in LiveJobs(S) && p.leader.index == k;
    }
    Enough(LiveJobs(S), n);
  }

  // ----- the table -----

  // The list and the set of the processes in it.
  ghost predicate Listed(procs: seq<Process>, S: set<Process>) {
    NoDup(procs) && (forall i | 0 <= i < |procs| :: procs[i] in S) &&
    (forall p {:trigger p in procs} | p in S :: p in procs)
  }

  // ----- sweeping out the flushed processes -----

  ghost function Alive(S: set<Process>): set<Process>
    reads S`pid
  {
    set p | p in S && p.pid != 0
  }

  // Jobs are flushed whole, so what is left when the flushed processes go is whole jobs.
  lemma AliveGrouped(S: set<Process>)
    requires Grouped(S)
    ensures Grouped(Alive(S))
  {
    var A := Alive(S);
    assert Shaped(A) && Friends(A) by {
      forall p | p in A ensures p.leader in A {
      }
    }
  }

  lemma AliveMarks(S: set<Process>, cur: Process?, prev: Process?, job: Process?, max: nat)
    requires Uniform(S) && Chosen(S, cur, prev, job) && Largest(S, max)
    ensures Chosen(Alive(S), cur, prev, job) && Largest(Alive(S), max)
  {
    if max > 0 {
      var p :| p in S && p.index == max;
      assert p in Alive(S);
    }
  }

  // ----- the directories the jobs hold -----

  // cwds lists what the processes hold: each leader one directory, the others none.
  ghost predicate Holding(procs: seq<Process>, cwds: seq<Directory?>)
    reads procs`cwd
  {
    |cwds| == |procs| &&
    forall i | 0 <= i < |procs| :: cwds[i] == procs[i].cwd && (procs[i].cwd != null <==> procs[i].leader == procs[i])
  }

  // Every node of r and kept is counted as often as it is held, and no other is held.
  ghost predicate Tally(r: seq<Directory>, kept: set<Directory>, cwds: seq<Directory?>)
    reads r`count, kept`count
  {
    (forall d | d in cwds && d != null :: d in r || d in kept) &&
    (forall d | d in r :: d.count == multiset(cwds)[d]) &&
    (forall d | d in kept :: d.count == multiset(cwds)[d])
  }

  // So is every directory in the ring or kept out of it.
  ghost predicate Counted(dirs: Dirs, cwds: seq<Directory?>)
    reads dirs, dirs.ring`count, dirs.detached`count
  {
    Tally(dirs.ring, dirs.detached, cwds)
  }

  // The stack is in order and counts what is held.
  ghost predicate DirsOk(dirs: Dirs, cwds: seq<Directory?>)
    reads dirs, dirs.ring, dirs.detached
  {
    dirs.Valid() && Counted(dirs, cwds)
  }

  // A new job holds the working directory.
  method Hold(dirs: Dirs, ghost cwds: seq<Directory?>) returns (d: Directory)
    requires dirs.Valid() && Counted(dirs, cwds)
    modifies dirs.dcwd`count
    ensures dirs.Valid() && d == dirs.dcwd && Counted(dirs, [d] + cwds)
  {
    d := dirs.dcwd;
    d.count := d.count + 1;
    assert multiset([d] + cwds) == multiset{d} + multiset(cwds);
  }

  lemma HoldNone(dirs: Dirs, cwds: seq<Directory?>)
    requires Counted(dirs, cwds)
    ensures Counted(dirs, [null] + cwds)
  {
    assert multiset([null] + cwds) == multiset{null} + multiset(cwds);
  }

  // What the sweep does with the directory of a process it frees.
  method Release(dirs: Dirs, d: Directory, ghost cwds: seq<Directory?>, ghost i: nat)
    requires dirs.Valid() && Counted(dirs, cwds) && i < |cwds| && cwds[i] == d
    modifies d, dirs`detached, dirs`freed
    ensures dirs.Valid() && Counted(dirs, Minus(cwds, i)) && dirs.detached <= old(dirs.detached)
    ensures Accounted(dirs, old(dirs.ring), old(dirs.detached), old(dirs.freed))
    ensures dirs.freed == old(dirs.freed) + (if d in old(dirs.detached) && d !in Minus(cwds, i) then {d} else {})
  {
    MinusCounts(cwds, i);
    assert d in cwds;
    dirs.CountDown(d);
  }

  lemma MinusCounts(cwds: seq<Directory?>, i: nat)
    requires i < |cwds|
    ensures multiset(cwds) == multiset(Minus(cwds, i)) + multiset{cwds[i]}
    ensures forall d :: d in Minus(cwds, i) <==> multiset(Minus(cwds, i))[d] > 0
    ensures forall d :: d in Minus(cwds, i) ==> d in cwds
  {
    assert cwds == cwds[..i] + [cwds[i]] + cwds[i + 1..];
  }

  // ----- the directory commands, among the jobs -----

  // Every node there was is in the ring, kept for a job, or freed.
  ghost predicate Accounted(dirs: Dirs, r: seq<Directory>, kept: set<Directory>, gone: set<Directory>)
    reads dirs
  {
    gone <= dirs.freed && (forall d | d in kept :: d in dirs.detached || d in dirs.freed) &&
    forall d | d in r :: d in dirs.ring || d in dirs.detached || d in dirs.freed
  }

  // The ring r is the stack s and the dummy head.
  ghost predicate Spread(s: seq<Directory>, r: seq<Directory>, h: Directory) {
    h in r && (forall d | d in s :: d in r) && (forall d | d in r :: d in s || d == h)
  }

  lemma StackSpread(dirs: Dirs)
    requires dirs.Valid()
    ensures Spread(dirs.Stack(), dirs.ring, dirs.dhead)
    ensures dirs.Stack() != [] && dirs.Stack()[0] == dirs.dcwd
  {
    var s, r := dirs.Stack(), dirs.ring;
    OthersMembers(r, dirs.dhead);
    OthersStep(r, 0, dirs.dhead);
  }

  // From s to t nothing goes but c, and nothing comes but e.
  ghost predicate Change(s: seq<Directory>, t: seq<Directory>, c: Directory?, e: Directory?) {
    (forall d | d in t :: d in s || d == e) && (forall d | d in s && d != c :: d in t)
  }

  lemma CdChange(s: seq<Directory>, t: seq<Directory>, n: int, e: Directory)
    requires 0 < |s| && n < |s| && t == if n > 0 then Rotate(s[1..], n - 1) else [e] + s[1..]
    ensures Change(s, t, s[0], if n > 0 then null else e)
  {
    assert s == [s[0]] + s[1..];
    assert n > 0 ==> s[1..] == s[1..][..n - 1] + s[1..][n - 1..];
  }

  lemma PushdChange(s: seq<Directory>, t: seq<Directory>, word: bool, n: int, e: Directory)
    requires if word then n < |s| else |s| > 1
    requires t == if !word then [s[1], s[0]] + s[2..] else if n > 0 then Rotate(s, n) else [e] + s
    ensures Change(s, t, null, if word && n <= 0 then e else null)
  {
    assert !word ==> s == [s[0], s[1]] + s[2..];
    assert word && n > 0 ==> s == s[..n] + s[n..];
  }

  lemma PopdChange(s: seq<Directory>, i: nat)
    requires i < |s|
    ensures Change(s, Minus(s, i), s[i], null)
  {
    assert s == s[..i] + [s[i]] + s[i + 1..];
  }

  // If the nodes there were are accounted for and the new ones are in the ring, every node
  // ever made is.
  lemma StaysComplete(dirs: Dirs, r: seq<Directory>, kept: set<Directory>, gone: set<Directory>, made: set<Directory>)
    requires Accounted(dirs, r, kept, gone) && forall d | d in made :: d in r || d in kept || d in gone
    requires forall d | d in dirs.made :: d in made || d in dirs.ring
    ensures dirs.Complete()
  {
  }

  // A command took c out of the ring and put nothing in but a node no job holds.
  lemma OneOut(dirs: Dirs, c: Directory, e: Directory?, s: seq<Directory>, r: seq<Directory>, kept: set<Directory>,
    gone: set<Directory>, cwds: seq<Directory?>)
    requires dirs.Valid() && Tally(r, kept, cwds) && dirs.Released(c, kept, gone) && c in s
    requires Spread(s, r, dirs.dhead) && Change(s, dirs.Stack(), c, e)
    requires e == null || (e !in r && e !in kept && e.count == 0)
    ensures Counted(dirs, cwds) && Accounted(dirs, r, kept, gone)
    ensures forall d | d in dirs.ring || d in dirs.detached :: d in r || d in kept || d == e
  {
    StackSpread(dirs);
  }

  lemma NoneOut(dirs: Dirs, e: Directory?, s: seq<Directory>, r: seq<Directory>, kept: set<Directory>,
    gone: set<Directory>, cwds: seq<Directory?>)
    requires dirs.Valid() && Tally(r, kept, cwds) && dirs.detached == kept && dirs.freed == gone
    requires Spread(s, r, dirs.dhead) && Change(s, dirs.Stack(), null, e)
    requires e == null || (e !in r && e !in kept && e.count == 0)
    ensures Counted(dirs, cwds) && Accounted(dirs, r, kept, gone)
    ensures forall d | d in dirs.ring || d in dirs.detached :: d in r || d in kept || d == e
  {
    StackSpread(dirs);
  }

  method CountedCd(dirs: Dirs, n: int, path: Path, chdir: bool, ghost cwds: seq<Directory?>)
    requires dirs.Valid() && Counted(dirs, cwds)
    modifies dirs, dirs.ring`next, dirs.ring`prev
    ensures dirs.Valid() && Counted(dirs, cwds)
    ensures forall d | d in dirs.ring || d in dirs.detached :: d in old(dirs.ring) || d in old(dirs.detached) || fresh(d)
    ensures old(dirs.made) <= dirs.made
    ensures forall d | d in dirs.made :: d in old(dirs.made) || d in dirs.ring
    ensures Accounted(dirs, old(dirs.ring), old(dirs.detached), old(dirs.freed))
  {
    ghost var r, kept, gone, c, s := dirs.ring, dirs.detached, dirs.freed, dirs.dcwd, dirs.Stack();
    ghost var tally := Tally(r, kept, cwds);
    StackSpread(dirs);
    var ok := dirs.Cd(n, path, chdir);
    assert tally == Tally(r, kept, cwds);
    if ok {
      CdChange(s, dirs.Stack(), n, dirs.dcwd);
      OneOut(dirs, c, if n > 0 then null else dirs.dcwd, s, r, kept, gone, cwds);
    }
  }

  method CountedPushd(dirs: Dirs, word: bool, n: int, path: Path, chdir: bool, ghost cwds: seq<Directory?>)
    requires dirs.Valid() && Counted(dirs, cwds)
    modifies dirs, dirs.ring`next, dirs.ring`prev
    ensures dirs.Valid() && Counted(dirs, cwds)
    ensures forall d | d in dirs.ring || d in dirs.detached :: d in old(dirs.ring) || d in old(dirs.detached) || fresh(d)
    ensures old(dirs.made) <= dirs.made
    ensures forall d | d in dirs.made :: d in old(dirs.made) || d in dirs.ring
    ensures Accounted(dirs, old(dirs.ring), old(dirs.detached), old(dirs.freed))
  {
    ghost var r, kept, gone, s := dirs.ring, dirs.detached, dirs.freed, dirs.Stack();
    ghost var tally := Tally(r, kept, cwds);
    StackSpread(dirs);
    var ok := dirs.Pushd(word, n, path, chdir);
    assert tally == Tally(r, kept, cwds);
    if ok {
      PushdChange(s, dirs.Stack(), word, n, dirs.dcwd);
      NoneOut(dirs, if word && n <= 0 then dirs.dcwd else null, s, r, kept, gone, cwds);
    }
  }

  method CountedPopd(dirs: Dirs, word: bool, n: int, chdir: bool, ghost cwds: seq<Directory?>)
    requires dirs.Valid() && Counted(dirs, cwds)
    modifies dirs, dirs.ring`next, dirs.ring`prev
    ensures dirs.Valid() && Counted(dirs, cwds)
    ensures forall d | d in dirs.ring || d in dirs.detached :: d in old(dirs.ring) || d in old(dirs.detached) || fresh(d)
    ensures old(dirs.made) <= dirs.made
    ensures forall d | d in dirs.made :: d in old(dirs.made) || d in dirs.ring
    ensures Accounted(dirs, old(dirs.ring), old(dirs.detached), old(dirs.freed))
  {
    ghost var r, kept, gone, s := dirs.ring, dirs.detached, dirs.freed, dirs.Stack();
    ghost var tally := Tally(r, kept, cwds);
    StackSpread(dirs);
    var ok := dirs.Popd(word, n, chdir);
    assert tally == Tally(r, kept, cwds);
    if ok {
      ghost var i := if word then n else 0;
      PopdChange(s, i);
      OneOut(dirs, s[i], null, s, r, kept, gone, cwds);
    }
  }

  // ----- the choice of the current and the previous job -----

  // The other live jobs, by their leaders, and those of them whose leader is stopped.
  ghost function Rivals(S: set<Process>, l: Process): set<Process>
    reads S`pid
  {
    set p | p in S && p.leader == p && p != l && p.pid != 0
  }

  ghost function Halted(S: set<Process>, l: Process): set<Process>
    reads S`stopped
  {
    set p | p in S && p.leader == p && p != l && p.stopped
  }

  // xp comes before every other choice but cur: none is before it in the list, unless it
  // is stopped and they are not.
  ghost predicate Foremost(procs: seq<Process>, L: set<Process>, H: set<Process>, xp: Process, cur: Process?) {
    exists i :: 0 <= i < |procs| && procs[i] == xp &&
      forall j | 0 <= j < i && procs[j] in L && procs[j] != cur :: xp in H && procs[j] !in H
  }

  // The newest of the jobs in L but cur that is stopped, or else the newest; null if there
  // is none.
  ghost predicate Picked(procs: seq<Process>, L: set<Process>, H: set<Process>, xp: Process?, cur: Process?) {
    if xp == null then forall p | p in L :: p == cur
    else xp in L && xp != cur && Foremost(procs, L, H, xp, cur) && (xp !in H ==> forall p | p in L && p != cur :: p !in H)
  }

  // What becomes of the marks cur and prev when the job of l, which is not in L, loses its
  // own.
  ghost predicate Cleared(procs: seq<Process>, L: set<Process>, H: set<Process>, l: Process, cur: Process?, prev: Process?,
    cur': Process?, prev': Process?)
  {
    if l == cur then
      (if prev != null then cur' == prev else Picked(procs, L, H, cur', null)) && Picked(procs, L, H, prev', cur')
    else cur' == cur && if l == prev then Picked(procs, L, H, prev', cur) else prev' == prev
  }

  // What can happen to the table, one masked section each.
  datatype Step =
    | Fork(pid: nat, foregnd: bool)                           // palloc
    | Child(pid: nat, stop: bool, notify: bool)               // pchild, for one child
    | Flush(i: nat)                                           // pflush of the i-th process
    | FlushAll
    | Start(i: nat, foregnd: bool)                            // pstart of a job, from its leader
    | EndJob
    | SweepOut                                                // pwait
    | ChangeDir(n: int, path: Path, chdir: bool)
    | PushDir(word: bool, n: int, path: Path, chdir: bool)
    | PopDir(word: bool, n: int, chdir: bool)

  class Table {
    const dirs: Dirs
    var procs: seq<Process>                  // proclist, the newest first
    var pcurrjob: Process?
    var pcurrent: Process?
    var pprevious: Process?
    var pmaxindex: nat
    ghost var all: set<Process>              // the processes in the list
    ghost var cwds: seq<Directory?>          // the directory each process holds

    ghost predicate InOrder()
      reads this`procs, this`all, this`pmaxindex, this`pcurrent, this`pprevious, this`pcurrjob
      reads all`ring, all`friends, all`pid, all`jobid, all`index
    {
      Listed(procs, all) && Grouped(all) && Largest(all, pmaxindex) &&
      Chosen(all, pcurrent, pprevious, pcurrjob)
    }

    ghost predicate TableOk()
      reads this`procs, this`all, this`pmaxindex, this`pcurrent, this`pprevious, this`pcurrjob
      reads all`ring, all`friends, all`pid, all`jobid, all`index
    {
      InOrder() == true
    }

    ghost predicate Valid()
      reads this, all, procs, dirs, dirs.ring, dirs.detached
    {
      TableOk() && Holding(procs, cwds) && DirsOk(dirs, cwds) == true
    }

    constructor (dirs: Dirs)
      requires dirs.Valid() && forall d | d in dirs.ring || d in dirs.detached :: d.count == 0
      ensures Valid() && this.dirs == dirs && procs == []
    {
      this.dirs := dirs;
      procs, cwds, all := [], [], {};
      pcurrjob, pcurrent, pprevious := null, null, null;
      pmaxindex := 0;
    }

    // A job that could become current in place of pp.
    ghost predicate Candidate(np: Process, pp: Process)
      reads this, np`pid, np`jobid
    {
      np in procs && np != pcurrent && np != pp && np.pid != 0 && np.pid == np.jobid
    }

    ghost predicate NewestOf(i: nat, pp: Process)
      reads this, procs`pid, procs`jobid, procs`stopped
      requires i < |procs|
    {
      forall j | 0 <= j < i :: Candidate(procs[j], pp) ==> procs[i].stopped && !procs[j].stopped
    }

    // The most recent other job, preferably stopped.
    method Pgetcurr(pp: Process) returns (xp: Process?)
      ensures xp == null ==> forall np | np in procs :: !Candidate(np, pp)
      ensures xp != null ==> Candidate(xp, pp) && exists i | 0 <= i < |procs| :: procs[i] == xp && NewestOf(i, pp)
      ensures xp != null && !xp.stopped ==> forall np | np in procs :: Candidate(np, pp) ==> !np.stopped
    {
      xp := null;
      ghost var first := 0;
      for i := 0 to |procs|
        invariant forall j | 0 <= j < i :: Candidate(procs[j], pp) ==> xp != null && !procs[j].stopped
        invariant xp != null ==> Candidate(xp, pp) && !xp.stopped && 0 <= first < i && procs[first] == xp
        invariant xp != null ==> forall j | 0 <= j < first :: !Candidate(procs[j], pp)
      {
        var np := procs[i];
        if np != pcurrent && np != pp && np.pid != 0 && np.pid == np.jobid {
          if np.stopped {
            return np;
          }
          if xp == null {
            xp := np;
            first := i;
          }
        }
      }
    }

    // The same, for a table in order.
    method Another(pp: Process) returns (xp: Process?)
      requires Listed(procs, all) && LeadersShow(all)
      ensures xp != null ==> xp in all && LiveLeader(xp) && xp != pcurrent && xp != pp
      ensures Picked(procs, Rivals(all, pp), Halted(all, pp), xp, pcurrent)
    {
      xp := Pgetcurr(pp);
      ghost var L, H := Rivals(all, pp), Halted(all, pp);
      assert forall np | np in all :: np in procs;
      assert forall np | np in procs :: (np in L && np != pcurrent) <==> Candidate(np, pp);
      assert forall np | np in L :: np in procs;
      if xp != null {
        ghost var i :| 0 <= i < |procs| && procs[i] == xp && NewestOf(i, pp);
        assert forall j | 0 <= j < i && procs[j] in L && procs[j] != pcurrent :: Candidate(procs[j], pp);
      }
    }

    // The given job is made neither the current nor the previous one.
    method Pclrcurr(pp: Process)
      requires Listed(procs, all) && LeadersShow(all)
      requires Chosen(all, pcurrent, pprevious, pcurrjob) && pp in all && LiveLeader(pp)
      modifies this`pcurrent, this`pprevious
      ensures Chosen(all, pcurrent, pprevious, pcurrjob) && pcurrent != pp && pprevious != pp
      ensures Cleared(procs, Rivals(all, pp), Halted(all, pp), pp, old(pcurrent), old(pprevious), pcurrent, pprevious)
    {
      if pp == pcurrent {
        if pprevious != null {
          pcurrent := pprevious;
          pprevious := Another(pp);
        } else {
          pcurrent := Another(pp);
          pprevious := Another(pp);
        }
      } else if pp == pprevious {
        pprevious := Another(pp);
      }
    }

    // The largest job number in the table.
    method LargestIndex() returns (idx: nat)
      requires Listed(procs, all)
      ensures Largest(all, idx)
    {
      idx := 0;
      assert forall p | p in all :: p in procs;
      for i := 0 to |procs|
        invariant forall j | 0 <= j < i :: procs[j].index <= idx
        invariant idx > 0 ==> exists p :: p in procs && p.index == idx
      {
        if procs[i].index > idx {
          idx := procs[i].index;
        }
      }
    }

    // The first half of pflush: no mark is left on the job.
    method Forget(l: Process, ghost L: set<Process>, ghost H: set<Process>)
      requires Listed(procs, all) && LeadersShow(all) && L == Rivals(all, l) && H == Halted(all, l)
      requires Chosen(all, pcurrent, pprevious, pcurrjob) && l in all && LiveLeader(l)
      modifies this`pcurrent, this`pprevious, this`pcurrjob
      ensures Chosen(all, pcurrent, pprevious, pcurrjob) && pcurrent != l && pprevious != l
      ensures pcurrjob == if old(pcurrjob) == l then null else old(pcurrjob)
      ensures Cleared(procs, L, H, l, old(pcurrent), old(pprevious), pcurrent, pprevious) == true
    {
      Pclrcurr(l);
      if l == pcurrjob {
        pcurrjob := null;
      }
    }

    // The second half: its processes are flagged, and the largest number found anew.
    method Retire(l: Process)
      requires TableOk() && l in all && l.leader == l && pcurrent != l && pprevious != l && pcurrjob != l
      modifies this`pmaxindex, all`index, all`pid, all`needNote
      ensures TableOk()
      ensures forall p | p in all && p.leader == l :: p.pid == p.index == 0 && !p.needNote
      ensures forall p | p in all && p.leader != l :: p.pid == old(p.pid) && p.index == old(p.index) && p.needNote == old(p.needNote)
    {
      var idx := l.index;
      ghost var top := TopProcess(all, pmaxindex);
      DiscardJob(l);
      if idx == pmaxindex {
        pmaxindex := LargestIndex();
      } else {
        assert pmaxindex > 0 ==> top.leader != l && top.index == pmaxindex;
      }
    }

    method DiscardJob(l: Process)
      requires TableOk() && l in all && l.leader == l && pcurrent != l && pprevious != l && pcurrjob != l
      modifies all`index, all`pid, all`needNote
      ensures Listed(procs, all) && Grouped(all) && Chosen(all, pcurrent, pprevious, pcurrjob)
      ensures forall p | p in all && p.leader == l :: p.pid == p.index == 0 && !p.needNote
      ensures forall p | p in all && p.leader != l :: p.pid == old(p.pid) && p.index == old(p.index) && p.needNote == old(p.needNote)
      ensures forall p | p in all && p.leader == l :: old(p.index) == old(l.index)
    {
      assert forall p | p in all && p.leader == l :: p.index == l.index;
      Discard(l, all);
    }
  
    // Flags the whole of pp's job for deletion; a second time there is nothing to do.
    method Pflush(pp: Process)
      requires TableOk() && pp in all
      modifies this`pcurrent, this`pprevious, this`pcurrjob, this`pmaxindex
      modifies all`index, all`pid, all`needNote
      ensures TableOk()
      ensures forall p | p in all && p.leader == pp.leader :: p.pid == p.index == 0 && (old(pp.pid) != 0 ==> !p.needNote)
      ensures forall p | p in all && p.leader != pp.leader ::
        p.pid == old(p.pid) && p.index == old(p.index) && p.needNote == old(p.needNote)
      ensures pcurrjob == if old(pcurrjob) == pp.leader then null else old(pcurrjob)
      ensures old(pp.pid) == 0 ==> pcurrent == old(pcurrent) && pprevious == old(pprevious)
      ensures old(pp.pid) != 0 ==> Cleared(procs, old(Rivals(all, pp.leader)), old(Halted(all, pp.leader)), pp.leader,
        old(pcurrent), old(pprevious), pcurrent, pprevious)
    {
      if pp.pid != 0 {
        PflushLive(pp, Rivals(all, pp.leader), Halted(all, pp.leader));
      } else {
        SameState(all, pp);
      }
    }

    method PflushLive(pp: Process, ghost L: set<Process>, ghost H: set<Process>)
      requires TableOk() && pp in all && pp.pid != 0 && L == Rivals(all, pp.leader) && H == Halted(all, pp.leader)
      modifies this`pcurrent, this`pprevious, this`pcurrjob, this`pmaxindex
      modifies all`index, all`pid, all`needNote
      ensures TableOk()
      ensures forall p | p in all && p.leader == pp.leader :: p.pid == p.index == 0 && !p.needNote
      ensures forall p | p in all && p.leader != pp.leader ::
        p.pid == old(p.pid) && p.index == old(p.index) && p.needNote == old(p.needNote)
      ensures pcurrjob == if old(pcurrjob) == pp.leader then null else old(pcurrjob)
      ensures Cleared(procs, L, H, pp.leader, old(pcurrent), old(pprevious), pcurrent, pprevious) == true
    {
      var l := LiveLeaderOf(pp);
      Forget(l, L, H);
      Retire(l);
    }

    // pflushall: nothing is left alive, and no job is current or previous.
    method Pflushall()
      requires TableOk()
      modifies this`pcurrent, this`pprevious, this`pcurrjob, this`pmaxindex
      modifies all`index, all`pid, all`needNote
      ensures TableOk() && pmaxindex == 0
      ensures forall p | p in all :: p.pid == p.index == 0
      ensures pcurrent == pprevious == pcurrjob == null
    {
      for i := 0 to |procs|
        invariant TableOk()
        invariant forall j | 0 <= j < i :: procs[j].pid == procs[j].index == 0
      {
        if procs[i].pid != 0 {
          Pflush(procs[i]);
        }
      }
      assert forall p | p in all :: p in procs;
    }
  
    // The number for a new job: the next one while it is small, or else the least that
    // is free.
    method FreeIndex() returns (i: nat)
      requires Listed(procs, all) && Shaped(all) && Uniform(all) && Largest(all, pmaxindex)
      ensures i > 0 && forall p | p in all :: p.index != i
      ensures i <= 9 || i <= |LiveJobs(all)| + 1
      ensures if pmaxindex < 9 then i == pmaxindex + 1 else i <= pmaxindex + 1 && forall k | 1 <= k < i :: Uses(all, k)
    {
      assert forall p | p in all :: p in procs;
      if pmaxindex < BIGINDEX {
        return pmaxindex + 1;
      }
      i := 1;
      var taken := InUse(i);
      while taken
        invariant 0 < i <= pmaxindex + 1 && (taken ==> i <= pmaxindex)
        invariant taken == Uses(all, i)
        invariant forall k | 1 <= k < i :: Uses(all, k)
        decreases pmaxindex + 1 - i
      {
        i := i + 1;
        taken := InUse(i);
      }
      NumbersCount(all, i - 1);
    }

    method InUse(i: nat) returns (taken: bool)
      requires Listed(procs, all)
      ensures taken == Uses(all, i)
    {
      assert forall p | p in all :: p in procs;
      for j := 0 to |procs|
        invariant forall k | 0 <= k < j :: procs[k].index != i
      {
        if procs[j].index == i {
          return true;
        }
      }
      taken := false;
    }
  
    // The new process is put at the head of the list.
    method Enlist(pp: Process)
      requires Listed(procs, all) && pp !in all && Grouped(all + {pp}) && Largest(all + {pp}, pmaxindex)
      requires Chosen(all + {pp}, pcurrent, pprevious, pcurrjob)
      modifies this`procs, this`all
      ensures TableOk() && procs == [pp] + old(procs) && all == old(all) + {pp}
    {
      procs := [pp] + procs;
      all := all + {pp};
    }

    // A process joins the job that is being started.
    method NewFriend(pid: nat, foregnd: bool) returns (pp: Process)
      requires TableOk() && pcurrjob != null && pid > 0 && forall q | q in all :: q.pid != pid
      modifies this`procs, this`all, all`friends, all`ring
      ensures Started(pp, foregnd)
      ensures TableOk() && fresh(pp) && procs == [pp] + old(procs) && all == old(all) + {pp}
      ensures pp.pid == pid && pp.leader == pcurrjob && pp.cwd == null
    {
      pp := MakeFriend(pid, foregnd, pcurrjob, all);
      Enlist(pp);
    }

    // The new job is marked current or previous if there is none.
    method Mark(pp: Process)
      requires Chosen(all, pcurrent, pprevious, null) && pp !in all && LiveLeader(pp)
      modifies this`pcurrjob, this`pcurrent, this`pprevious
      ensures Chosen(all + {pp}, pcurrent, pprevious, pcurrjob) && pcurrjob == pp
      ensures pcurrent == if old(pcurrent) == null then pp else old(pcurrent)
      ensures pprevious == if old(pcurrent) != null && old(pprevious) == null then pp else old(pprevious)
    {
      pcurrjob := pp;
      if pcurrent == null {
        pcurrent := pp;
      } else if pprevious == null {
        pprevious := pp;
      }
    }

    method Admit(pp: Process)
      requires Listed(procs, all) && pp !in all && Grouped(all + {pp}) && Largest(all + {pp}, pmaxindex)
      requires Chosen(all, pcurrent, pprevious, null) && LiveLeader(pp)
      modifies this`procs, this`all, this`pcurrjob, this`pcurrent, this`pprevious
      ensures TableOk() && procs == [pp] + old(procs) && all == old(all) + {pp} && pcurrjob == pp
      ensures pcurrent == if old(pcurrent) == null then pp else old(pcurrent)
      ensures pprevious == if old(pcurrent) != null && old(pprevious) == null then pp else old(pprevious)
    {
      Mark(pp);
      Enlist(pp);
    }

    // The leader of a new job and its number.
    method Number(pid: nat, foregnd: bool) returns (pp: Process)
      requires Listed(procs, all) && Grouped(all) && Largest(all, pmaxindex)
      requires pid > 0 && forall q | q in all :: q.pid != pid
      modifies this`pmaxindex
      ensures Started(pp, foregnd)
      ensures fresh(pp) && Grouped(all + {pp}) && Largest(all + {pp}, pmaxindex)
      ensures pp.pid == pid && pp.leader == pp && pp.cwd == null && forall q | q in all :: q.index != pp.index
      ensures pp.index <= 9 || pp.index <= |old(LiveJobs(all))| + 1
    {
      var i := FreeIndex();
      pp := MakeLeader(pid, foregnd, i, all);
      if i > pmaxindex {
        pmaxindex := i;
      }
    }

    // A process leads a new job.
    method NewLeader(pid: nat, foregnd: bool) returns (pp: Process)
      requires TableOk() && pcurrjob == null && pid > 0 && forall q | q in all :: q.pid != pid
      modifies this`procs, this`all, this`pmaxindex, this`pcurrjob, this`pcurrent, this`pprevious
      ensures Started(pp, foregnd)
      ensures TableOk() && fresh(pp) && procs == [pp] + old(procs) && all == old(all) + {pp}
      ensures pp.pid == pid && pp.leader == pp && pp.cwd == null && pcurrjob == pp
      ensures forall q | q in old(all) :: q.index != pp.index
      ensures pp.index <= 9 || pp.index <= |old(LiveJobs(all))| + 1
      ensures pcurrent == if old(pcurrent) == null then pp else old(pcurrent)
      ensures pprevious == if old(pcurrent) != null && old(pprevious) == null then pp else old(pprevious)
    {
      pp := Number(pid, foregnd);
      Admit(pp);
    }
  
    // The new process at the head of the list holds nothing, or the directory d.
    method HoldFirst(pp: Process, d: Directory?)
      requires procs != [] && pp == procs[0] && pp !in procs[1..] && (d != null <==> pp.leader == pp)
      requires Holding(procs[1..], cwds)
      modifies this`cwds, pp`cwd
      ensures cwds == [d] + old(cwds) && Holding(procs, cwds)
    {
      pp.cwd := d;
      assert Holding(procs[1..], cwds);
      cwds := [d] + cwds;
      assert forall i | 1 <= i < |procs| :: procs[i] == procs[1..][i - 1];
    }

    method PallocFriend(pid: nat, foregnd: bool) returns (pp: Process)
      requires TableOk() && Holding(procs, cwds) && pcurrjob != null && pid > 0 && forall q | q in all :: q.pid != pid
      modifies this`procs, this`all, this`cwds, all`friends, all`ring
      ensures Started(pp, foregnd)
      ensures TableOk() && Holding(procs, cwds)
      ensures fresh(pp) && procs == [pp] + old(procs) && all == old(all) + {pp} && pp.pid == pid
      ensures cwds == [null] + old(cwds) && pp.leader == pcurrjob
    {
      pp := NewFriend(pid, foregnd);
      assert procs[1..] == old(procs);
      HoldFirst(pp, null);
    }

    method PallocLeader(pid: nat, foregnd: bool, d: Directory) returns (pp: Process)
      requires TableOk() && Holding(procs, cwds) && pcurrjob == null && pid > 0 && forall q | q in all :: q.pid != pid
      modifies this`procs, this`all, this`pmaxindex, this`pcurrjob, this`pcurrent, this`pprevious, this`cwds
      ensures Started(pp, foregnd)
      ensures TableOk() && Holding(procs, cwds)
      ensures fresh(pp) && procs == [pp] + old(procs) && all == old(all) + {pp} && pp.pid == pid
      ensures cwds == [d] + old(cwds) && pp.leader == pcurrjob == pp
      ensures forall q | q in old(all) :: q.index != pp.index
      ensures pp.index <= 9 || pp.index <= |old(LiveJobs(all))| + 1
      ensures pcurrent == if old(pcurrent) == null then pp else old(pcurrent)
      ensures pprevious == if old(pcurrent) != null && old(pprevious) == null then pp else old(pprevious)
    {
      pp := NewLeader(pid, foregnd);
      assert procs[1..] == old(procs);
      HoldFirst(pp, d);
    }
  
    // palloc: the new process joins the job being started, or leads a new one, which
    // holds the working directory.
    method Palloc(pid: nat, foregnd: bool) returns (pp: Process)
      requires Valid() && pid > 0 && forall q | q in all :: q.pid != pid
      modifies this, all`friends, all`ring, dirs.dcwd`count
      ensures Started(pp, foregnd)
      ensures Valid() && fresh(pp) && procs == [pp] + old(procs) && all == old(all) + {pp} && pp.pid == pid
      ensures cwds == [if old(pcurrjob) == null then dirs.dcwd else null] + old(cwds)
      ensures old(pcurrjob) != null ==> pp.leader == pcurrjob == old(pcurrjob) && pmaxindex == old(pmaxindex)
      ensures old(pcurrjob) != null ==> pcurrent == old(pcurrent) && pprevious == old(pprevious)
      ensures old(pcurrjob) == null ==> pp.leader == pcurrjob == pp && forall q | q in old(all) :: q.index != pp.index
      ensures old(pcurrjob) == null ==> pp.index <= 9 || pp.index <= |old(LiveJobs(all))| + 1
      ensures old(pcurrjob) == null ==> pcurrent == if old(pcurrent) == null then pp else old(pcurrent)
      ensures old(pcurrjob) == null ==>
        pprevious == if old(pcurrent) != null && old(pprevious) == null then pp else old(pprevious)
    {
      if pcurrjob != null {
        pp := JoinJob(pid, foregnd);
      } else {
        pp := StartNew(pid, foregnd);
      }
    }

    method JoinJob(pid: nat, foregnd: bool) returns (pp: Process)
      requires Valid() && pcurrjob != null && pid > 0 && forall q | q in all :: q.pid != pid
      modifies this`procs, this`all, this`cwds, all`friends, all`ring
      ensures Started(pp, foregnd)
      ensures Valid() && fresh(pp) && procs == [pp] + old(procs) && all == old(all) + {pp} && pp.pid == pid
      ensures cwds == [null] + old(cwds) && pp.leader == pcurrjob
    {
      HoldNone(dirs, cwds);
      ghost var held := [null] + cwds;
      ghost var dirsOk := DirsOk(dirs, held);
      pp := PallocFriend(pid, foregnd);
      assert dirsOk == DirsOk(dirs, held);
    }

    method StartNew(pid: nat, foregnd: bool) returns (pp: Process)
      requires Valid() && pcurrjob == null && pid > 0 && forall q | q in all :: q.pid != pid
      modifies this`procs, this`all, this`pmaxindex, this`pcurrjob, this`pcurrent, this`pprevious
      modifies this`cwds, dirs.dcwd`count
      ensures Started(pp, foregnd)
      ensures Valid() && fresh(pp) && procs == [pp] + old(procs) && all == old(all) + {pp} && pp.pid == pid
      ensures cwds == [dirs.dcwd] + old(cwds) && pp.leader == pcurrjob == pp
      ensures forall q | q in old(all) :: q.index != pp.index
      ensures pp.index <= 9 || pp.index <= |old(LiveJobs(all))| + 1
      ensures pcurrent == if old(pcurrent) == null then pp else old(pcurrent)
      ensures pprevious == if old(pcurrent) != null && old(pprevious) == null then pp else old(pprevious)
    {
      var d := Hold(dirs, cwds);
      ghost var held := [d] + cwds;
      ghost var dirsOk := DirsOk(dirs, held);
      pp := PallocLeader(pid, foregnd, d);
      assert dirsOk == DirsOk(dirs, held);
    }
  
    // What the sweep keeps while it goes through the list: nothing flushed before i, every
    // live process, and the directories of the rest.
    ghost predicate Sweeping(i: nat)
      reads this, all`pid
    {
      i <= |procs| && NoDup(procs) && (forall j | 0 <= j < |procs| :: procs[j] in all) &&
      (forall j | 0 <= j < i :: procs[j].pid != 0) &&
      (forall p {:trigger p in procs} | p in all && p.pid != 0 :: p in procs)
    }

    // Frees the flushed process at position i.
    method Unlist(i: nat)
      requires Sweeping(i) && i < |procs| && procs[i].pid == 0 && Holding(procs, cwds)
      modifies this`procs, this`cwds
      ensures Sweeping(i) && |procs| == old(|procs|) - 1
      ensures Holding(procs, cwds) && cwds == Minus(old(cwds), i)
    {
      procs := Minus(procs, i);
      cwds := Minus(cwds, i);
      assert procs == old(procs[..i]) + old(procs[i + 1..]);
      assert forall p | p in old(procs) && p != old(procs[i]) :: p in procs;
    }

    // What becomes of its directory.
    method LetGo(i: nat)
      requires i < |procs| && dirs.Valid() && Holding(procs, cwds) && Counted(dirs, cwds)
      modifies dirs.ring, dirs.detached, dirs`detached, dirs`freed
      ensures dirs.Valid() && Counted(dirs, Minus(cwds, i))
      ensures dirs.detached <= old(dirs.detached) && Accounted(dirs, old(dirs.ring), old(dirs.detached), old(dirs.freed))
    {
      var d := procs[i].cwd;
      if d != null {
        assert d in cwds;
        Release(dirs, d, cwds, i);
      } else {
        ReleaseNone(dirs, cwds, i);
      }
    }
  
    // The loop of the sweep.
    method SweepList()
      requires Sweeping(0) && dirs.Valid() && Holding(procs, cwds) && Counted(dirs, cwds)
      modifies this`procs, this`cwds, dirs.ring, dirs.detached, dirs`detached, dirs`freed
      ensures Sweeping(|procs|) && dirs.Valid() && Holding(procs, cwds) && Counted(dirs, cwds)
      ensures dirs.detached <= old(dirs.detached) && Accounted(dirs, old(dirs.ring), old(dirs.detached), old(dirs.freed))
    {
      var i := 0;
      while i < |procs|
        invariant Sweeping(i) && dirs.Valid() && Holding(procs, cwds) && Counted(dirs, cwds)
        invariant dirs.detached <= old(dirs.detached) && Accounted(dirs, old(dirs.ring), old(dirs.detached), old(dirs.freed))
        decreases |procs| - i
      {
        if procs[i].pid == 0 {
          SweepOne(i);
        } else {
          i := i + 1;
        }
      }
    }

    method SweepOne(i: nat)
      requires Sweeping(i) && i < |procs| && procs[i].pid == 0
      requires dirs.Valid() && Holding(procs, cwds) && Counted(dirs, cwds)
      modifies this`procs, this`cwds, dirs.ring, dirs.detached, dirs`detached, dirs`freed
      ensures Sweeping(i) && |procs| == old(|procs|) - 1
      ensures dirs.Valid() && Holding(procs, cwds) && Counted(dirs, cwds)
      ensures dirs.detached <= old(dirs.detached) && Accounted(dirs, old(dirs.ring), old(dirs.detached), old(dirs.freed))
    {
      LetGo(i);
      ghost var left := Minus(cwds, i);
      ghost var dirsOk := DirsOk(dirs, left);
      Unlist(i);
      assert dirsOk == DirsOk(dirs, left);
    }

    // A could be all the processes there are.
    ghost predicate Fits(A: set<Process>)
      reads this`pmaxindex, this`pcurrent, this`pprevious, this`pcurrjob
      reads A`ring, A`friends, A`pid, A`jobid, A`index
    {
      Grouped(A) && Largest(A, pmaxindex) && Chosen(A, pcurrent, pprevious, pcurrjob)
    }

    method SweepDead(ghost A: set<Process>)
      requires dirs.Valid() && Holding(procs, cwds) && Counted(dirs, cwds)
      requires Sweeping(0) && A == Alive(all) && Fits(A)
      modifies this`procs, this`cwds, this`all, dirs.ring, dirs.detached, dirs`detached, dirs`freed
      ensures Valid() && all == A
      ensures dirs.detached <= old(dirs.detached) && Accounted(dirs, old(dirs.ring), old(dirs.detached), old(dirs.freed))
    {
      ghost var fits := Fits(A);
      SweepList();
      assert fits == Fits(A);
      Shrink(A);
    }

    // The sweep in pwait: the flushed processes go, and with them their hold on the
    // directories; a directory out of the ring that nothing holds any more is freed.
    method Sweep()
      requires Valid()
      modifies this`procs, this`cwds, this`all, dirs.ring, dirs.detached, dirs`detached, dirs`freed
      ensures Valid() && all == old(Alive(all))
      ensures dirs.detached <= old(dirs.detached) && Accounted(dirs, old(dirs.ring), old(dirs.detached), old(dirs.freed))
    {
      AliveGrouped(all);
      AliveMarks(all, pcurrent, pprevious, pcurrjob, pmaxindex);
      SweepDead(Alive(all));
    }

    ghost method Shrink(A: set<Process>)
      requires Sweeping(|procs|) && A == Alive(all) && Fits(A)
      modifies this`all
      ensures TableOk() && all == A
    {
      all := A;
    }
  
    // Pclrcurr on a table in order.
    method Unmark(l: Process, ghost L: set<Process>, ghost H: set<Process>)
      requires TableOk() && l in all && LiveLeader(l) && L == Rivals(all, l) && H == Halted(all, l)
      modifies this`pcurrent, this`pprevious
      ensures TableOk() && pcurrent != l && pprevious != l
      ensures Cleared(procs, L, H, l, old(pcurrent), old(pprevious), pcurrent, pprevious) == true
    {
      Pclrcurr(l);
    }

    // A job that stops becomes the current one, and the current one the previous.
    method MakeCurrent(l: Process)
      requires TableOk() && l in all && LiveLeader(l)
      modifies this`pcurrent, this`pprevious
      ensures TableOk() && pcurrent == l
      ensures pprevious == if old(pcurrent) != null && old(pcurrent) != l then old(pcurrent) else old(pprevious)
    {
      if pcurrent != null && pcurrent != l {
        pprevious := pcurrent;
      }
      pcurrent := l;
    }

    method FindPid(pid: nat) returns (pp: Process?)
      requires Listed(procs, all) && pid > 0
      ensures pp == null ==> forall p | p in all :: p.pid != pid
      ensures pp != null ==> pp in all && pp.pid == pid
    {
      assert forall p | p in all :: p in procs;
      for i := 0 to |procs|
        invariant forall j | 0 <= j < i :: procs[j].pid != pid
      {
        if procs[i].pid == pid {
          return procs[i];
        }
      }
      pp := null;
    }

    // The first part of pchild: the new state of the child, and what the states of its
    // job then come to.
    method Account(pp: Process, stop: bool) returns (busy: bool, stopped: bool, foregnd: bool)
      requires Shaped(all) && Friends(all) && pp in all
      modifies pp`running, pp`stopped, pp`reported, pp`foregnd
      ensures !pp.running && pp.stopped == stop && !pp.reported && !pp.foregnd
      ensures busy == old(Busy(all, pp)) && stopped == (stop || old(Stopping(all, pp)))
      ensures foregnd == old(Watched(all, pp))
    {
      ghost var r := JobFrom(all, pp);
      ghost var gs, ss, ws := Busy(all, pp), Stopping(all, pp), Watched(all, pp);
      pp.running, pp.stopped, pp.reported := false, stop, false;
      assert gs == Busy(all, pp) && ss == Stopping(all, pp) && ws == Watched(all, pp);
      assert r[0] == pp;
      var running, reported;
      running, stopped, reported, foregnd := JobFlags(pp, r);
      busy := running || reported;
      pp.foregnd := false;
    }

    // The second part, for a job that has come to rest.
    method Conclude(pp: Process, stopped: bool, foregnd: bool, notify: bool, ghost L: set<Process>, ghost H: set<Process>)
      requires TableOk() && pp in all && pp.pid != 0 && L == Rivals(all, pp.leader) && H == Halted(all, pp.leader)
      modifies this`pcurrent, this`pprevious, this`pcurrjob, this`pmaxindex
      modifies all`index, all`pid, all`needNote, all`reported
      ensures TableOk() && Settled(pp, stopped, L, H, old(pcurrent), old(pprevious)) == true
      ensures forall p | p in all && p.leader != pp.leader :: p.pid == old(p.pid) && p.index == old(p.index)
      ensures !stopped && !foregnd && notify ==> forall p | p in all && p.leader == pp.leader :: p.pid == 0
      ensures stopped || foregnd || !notify ==> forall p | p in all :: p.pid == old(p.pid) && p.index == old(p.index)
      ensures forall p | p in all :: p.reported == (old(p.reported) || (p.leader == pp.leader && p.stopped))
      ensures forall p | p in all :: p.needNote == Noted(p, pp.leader, stopped, foregnd, notify, old(p.needNote))
    {
      Report(pp);
      var fp := LiveLeaderOf(pp);
      Settle(pp, fp, stopped, foregnd, notify, L, H);
    }

    method LiveLeaderOf(pp: Process) returns (fp: Process)
      requires TableOk() && pp in all && pp.pid != 0
      ensures fp == pp.leader && fp in all && LiveLeader(fp)
    {
      SameState(all, pp);
      fp := LeaderOf(pp, all);
    }

    method Report(pp: Process)
      requires Shaped(all) && Friends(all) && pp in all
      modifies all`reported
      ensures forall p | p in all :: p.reported == (old(p.reported) || (p.leader == pp.leader && p.stopped))
    {
      ghost var r := JobFrom(all, pp);
      MarkReported(pp, r);
    }

    // A stopped job is the current one, and the one before it the previous; one that has
    // ended loses its marks.
    ghost predicate Settled(pp: Process, stopped: bool, L: set<Process>, H: set<Process>, cur: Process?, prev: Process?)
      reads this`procs, this`pcurrent, this`pprevious
    {
      if stopped then pcurrent == pp.leader && pprevious == (if cur != null && cur != pp.leader then cur else prev)
      else Cleared(procs, L, H, pp.leader, cur, prev, pcurrent, pprevious) && pcurrent != pp.leader && pprevious != pp.leader
    }

    // Whether p is to be told of, after the job of l came to rest: not when the job was
    // flushed; its leader, when it ran in the background and is not reported at once.
    ghost predicate Noted(p: Process, l: Process, stopped: bool, foregnd: bool, notify: bool, before: bool) {
      if p.leader == l && !foregnd && notify && !stopped then false
      else before || (p == l && !foregnd && !notify)
    }

    // pchild, for one child whose state has changed: it stopped or it ended.  A job that
    // has no running process left becomes current if it stopped; otherwise it loses its
    // marks, and is flushed if it ran in the background and is reported at once.
    method Pchild(pid: nat, stop: bool, notify: bool) returns (pp: Process?)
      requires TableOk() && pid > 0
      modifies this`pcurrent, this`pprevious, this`pcurrjob, this`pmaxindex
      modifies all`index, all`pid, all`needNote, all`running, all`stopped, all`reported, all`foregnd
      ensures TableOk()
      ensures if pp == null then forall p | p in all :: old(p.pid) != pid else pp in all && old(pp.pid) == pid
      ensures pp == null || old(Busy(all, pp)) ==> pcurrent == old(pcurrent) && pprevious == old(pprevious)
      ensures pp != null && !old(Busy(all, pp)) ==> Settled(pp, stop || old(Stopping(all, pp)),
        old(Rivals(all, pp.leader)), old(Halted(all, pp.leader)), old(pcurrent), old(pprevious))
      ensures forall p | p in all && (pp == null || p.leader != pp.leader) :: p.pid == old(p.pid) && p.index == old(p.index)
      ensures pp != null ==> forall p | p in all && p.leader == pp.leader ::
        if old(Busy(all, pp) || Stopping(all, pp) || Watched(all, pp)) || stop || !notify
        then p.pid == old(p.pid) && p.index == old(p.index) else p.pid == 0
      ensures pp != null ==> !pp.running && pp.stopped == stop && !pp.foregnd
      ensures forall p | p in all && p != pp ::
        p.running == old(p.running) && p.stopped == old(p.stopped) && p.foregnd == old(p.foregnd)
      ensures pp == null ==> forall p | p in all :: p.reported == old(p.reported) && p.needNote == old(p.needNote)
      ensures pp != null ==> forall p | p in all ::
        p.reported == ((p != pp && old(p.reported)) || (!old(Busy(all, pp)) && p.leader == pp.leader && p.stopped))
      ensures pp != null ==> forall p | p in all :: p.needNote == if old(Busy(all, pp)) then old(p.needNote)
        else Noted(p, pp.leader, stop || old(Stopping(all, pp)), old(Watched(all, pp)), notify, old(p.needNote))
    {
      pp := FindPid(pid);
      if pp == null {
        return;
      }
      ghost var busy, stopping := Busy(all, pp), Stopping(all, pp);
      ForChild(pp, stop, notify, Rivals(all, pp.leader), Halted(all, pp.leader));
    }

    // The same for the process found.
    method ForChild(pp: Process, stop: bool, notify: bool, ghost L: set<Process>, ghost H: set<Process>)
      requires TableOk() && pp in all && pp.pid != 0 && L == Rivals(all, pp.leader) && H == Halted(all, pp.leader)
      modifies this`pcurrent, this`pprevious, this`pcurrjob, this`pmaxindex
      modifies all`index, all`pid, all`needNote, all`reported, pp`running, pp`stopped, pp`foregnd
      ensures TableOk() && !pp.running && pp.stopped == stop && !pp.foregnd
      ensures forall p | p in all && p.leader != pp.leader :: p.pid == old(p.pid) && p.index == old(p.index)
      ensures forall p | p in all && p.leader == pp.leader ::
        if old(Busy(all, pp) || Stopping(all, pp) || Watched(all, pp)) || stop || !notify
        then p.pid == old(p.pid) && p.index == old(p.index) else p.pid == 0
      ensures if old(Busy(all, pp)) then pcurrent == old(pcurrent) && pprevious == old(pprevious)
        else Settled(pp, stop || old(Stopping(all, pp)), L, H, old(pcurrent), old(pprevious)) == true
      ensures forall p | p in all ::
        p.reported == ((p != pp && old(p.reported)) || (!old(Busy(all, pp)) && p.leader == pp.leader && p.stopped))
      ensures forall p | p in all :: p.needNote == if old(Busy(all, pp)) then old(p.needNote)
        else Noted(p, pp.leader, stop || old(Stopping(all, pp)), old(Watched(all, pp)), notify, old(p.needNote))
    {
      var busy, stopped, foregnd := Account(pp, stop);
      assert L == Rivals(all, pp.leader) && H == Halted(all, pp.leader);
      if !busy {
        Conclude(pp, stopped, foregnd, notify, L, H);
      }
    }

    // What pchild does with a job none of whose processes is running.
    method Settle(pp: Process, fp: Process, stopped: bool, foregnd: bool, notify: bool, ghost L: set<Process>, ghost H: set<Process>)
      requires TableOk() && pp in all && pp.pid != 0 && fp == pp.leader && fp in all && LiveLeader(fp)
      requires L == Rivals(all, fp) && H == Halted(all, fp)
      modifies this`pcurrent, this`pprevious, this`pcurrjob, this`pmaxindex
      modifies all`index, all`pid, all`needNote
      ensures TableOk() && Settled(pp, stopped, L, H, old(pcurrent), old(pprevious)) == true
      ensures forall p | p in all && p.leader != fp :: p.pid == old(p.pid) && p.index == old(p.index)
      ensures !stopped && !foregnd && notify ==> forall p | p in all && p.leader == fp :: p.pid == 0
      ensures stopped || foregnd || !notify ==> forall p | p in all :: p.pid == old(p.pid) && p.index == old(p.index)
      ensures forall p | p in all :: p.needNote == Noted(p, fp, stopped, foregnd, notify, old(p.needNote))
    {
      Remark(pp, fp, stopped, L, H);
      Tell(pp, fp, stopped, foregnd, notify);
    }

    // The marks,
    method Remark(pp: Process, fp: Process, stopped: bool, ghost L: set<Process>, ghost H: set<Process>)
      requires TableOk() && fp == pp.leader && fp in all && LiveLeader(fp) && L == Rivals(all, fp) && H == Halted(all, fp)
      modifies this`pcurrent, this`pprevious
      ensures TableOk() && Settled(pp, stopped, L, H, old(pcurrent), old(pprevious)) == true
      ensures !stopped ==> pcurrent != fp && pprevious != fp
    {
      if stopped {
        MakeCurrent(fp);
      } else {
        Unmark(fp, L, H);
      }
    }

    // and the flushing or the note.
    method Tell(pp: Process, fp: Process, stopped: bool, foregnd: bool, notify: bool)
      requires TableOk() && pp in all && pp.pid != 0 && fp == pp.leader && fp in all
      requires !stopped ==> pcurrent != fp && pprevious != fp
      modifies this`pcurrent, this`pprevious, this`pcurrjob, this`pmaxindex
      modifies all`index, all`pid, all`needNote
      ensures TableOk() && pcurrent == old(pcurrent) && pprevious == old(pprevious)
      ensures forall p | p in all && p.leader != fp :: p.pid == old(p.pid) && p.index == old(p.index)
      ensures !stopped && !foregnd && notify ==> forall p | p in all && p.leader == fp :: p.pid == 0
      ensures stopped || foregnd || !notify ==> forall p | p in all :: p.pid == old(p.pid) && p.index == old(p.index)
      ensures forall p | p in all :: p.needNote == Noted(p, fp, stopped, foregnd, notify, old(p.needNote))
    {
      if !foregnd {
        if notify {
          if !stopped {
            Pflush(pp);
          }
        } else {
          fp.needNote := true;
        }
      }
    }

    // pstart: the job is set going; in the background it gives up its marks.
    method Pstart(pp: Process, foregnd: bool)
      requires TableOk() && pp in all && LiveLeader(pp)
      modifies this`pcurrent, this`pprevious, all`running, all`stopped, all`foregnd
      ensures TableOk()
      ensures foregnd ==> pcurrent == old(pcurrent) && pprevious == old(pprevious)
      ensures !foregnd ==> pcurrent != pp && pprevious != pp
      ensures foregnd ||
        Cleared(procs, old(Rivals(all, pp)), old(Halted(all, pp)), pp, old(pcurrent), old(pprevious), pcurrent, pprevious)
      ensures forall q | q in all && q.leader == pp && old(q.running || q.stopped) ::
        q.running && !q.stopped && q.foregnd == foregnd
      ensures forall q | q in all && (q.leader != pp || !old(q.running || q.stopped)) ::
        q.running == old(q.running) && q.stopped == old(q.stopped) && q.foregnd == old(q.foregnd)
    {
      ghost var L, H := Rivals(all, pp), Halted(all, pp);
      ghost var r := JobFrom(all, pp);
      StartJob(pp, foregnd, r);
      assert L == Rivals(all, pp) && H == Halted(all, pp);
      if !foregnd {
        Unmark(pp, L, H);
      }
    }

    // pendjob: the next process starts a new job.
    method Pendjob()
      requires TableOk()
      modifies this`pcurrjob
      ensures TableOk() && pcurrjob == null
    {
      pcurrjob := null;
    }

    // ----- whole runs -----

    // A step that concerns the jobs alone.
    method JobStep(s: Step)
      requires TableOk()
      modifies this`pcurrent, this`pprevious, this`pcurrjob, this`pmaxindex
      modifies all`index, all`pid, all`needNote, all`running, all`stopped, all`reported, all`foregnd
      ensures TableOk()
      ensures s.FlushAll? ==> pcurrent == pprevious == pcurrjob == null
    {
      match s
      case Child(pid, stop, notify) =>
        if pid > 0 {
          var _ := Pchild(pid, stop, notify);
        }
      case Flush(i) =>
        if i < |procs| {
          Pflush(procs[i]);
        }
      case FlushAll => Pflushall();
      case EndJob => Pendjob();
      case Start(i, foregnd) =>
        if i < |procs| && procs[i].pid == procs[i].jobid && procs[i].pid != 0 {
          Pstart(procs[i], foregnd);
        }
      case _ =>
    }

    // A step that concerns the directories alone.
    method DirStep(s: Step)
      requires dirs.Valid() && Counted(dirs, cwds)
      modifies dirs, dirs.ring`next, dirs.ring`prev
      ensures dirs.Valid() && Counted(dirs, cwds)
      ensures old(dirs.made) <= dirs.made
      ensures forall d | d in dirs.made :: d in old(dirs.made) || d in dirs.ring
      ensures Accounted(dirs, old(dirs.ring), old(dirs.detached), old(dirs.freed))
      ensures forall d | d in dirs.ring || d in dirs.detached :: d in old(dirs.ring) || d in old(dirs.detached) || fresh(d)
    {
      match s
      case ChangeDir(n, path, chdir) => CountedCd(dirs, n, path, chdir, cwds);
      case PushDir(word, n, path, chdir) => CountedPushd(dirs, word, n, path, chdir, cwds);
      case PopDir(word, n, chdir) => CountedPopd(dirs, word, n, chdir, cwds);
      case _ =>
    }

    method Jobly(s: Step)
      requires Valid()
      modifies this`pcurrent, this`pprevious, this`pcurrjob, this`pmaxindex
      modifies all`index, all`pid, all`needNote, all`running, all`stopped, all`reported, all`foregnd
      ensures Valid()
    {
      ghost var dirsOk, holding := DirsOk(dirs, cwds), Holding(procs, cwds);
      JobStep(s);
      assert dirsOk == DirsOk(dirs, cwds) && holding == Holding(procs, cwds);
    }

    method Dirly(s: Step)
      requires Valid()
      modifies dirs, dirs.ring`next, dirs.ring`prev
      ensures Valid()
      ensures old(dirs.made) <= dirs.made
      ensures forall d | d in dirs.made :: d in old(dirs.made) || d in dirs.ring
      ensures Accounted(dirs, old(dirs.ring), old(dirs.detached), old(dirs.freed))
      ensures forall d | d in dirs.ring || d in dirs.detached :: d in old(dirs.ring) || d in old(dirs.detached) || fresh(d)
    {
      ghost var tableOk, holding := TableOk(), Holding(procs, cwds);
      DirStep(s);
      assert tableOk == TableOk() && holding == Holding(procs, cwds);
    }

    // One step.  A process forked with a pid that is in the table, which the system does
    // not hand out, is none.
    method Act(s: Step)
      requires Valid()
      modifies this, all, dirs, dirs.ring, dirs.detached
      ensures Valid() && fresh(all - old(all)) && old(dirs.made) <= dirs.made
      ensures Accounted(dirs, old(dirs.ring), old(dirs.detached), old(dirs.freed))
      ensures forall d | d in dirs.made :: d in old(dirs.made) || d in dirs.ring
      ensures forall d | d in dirs.ring || d in dirs.detached :: d in old(dirs.ring) || d in old(dirs.detached) || fresh(d)
    {
      if s.Fork? {
        Fork(s.pid, s.foregnd);
      } else if s.SweepOut? {
        Sweep();
      } else if s.ChangeDir? || s.PushDir? || s.PopDir? {
        Dirly(s);
      } else {
        Jobly(s);
      }
    }

    method Fork(pid: nat, foregnd: bool)
      requires Valid()
      modifies this, all`friends, all`ring, dirs.dcwd`count
      ensures Valid() && fresh(all - old(all))
    {
      if pid > 0 {
        var q := FindPid(pid);
        if q == null {
          var _ := Palloc(pid, foregnd);
        }
      }
    }

    method Execute(s: Step)
      requires Valid() && dirs.Complete()
      modifies this, all, dirs, dirs.ring, dirs.detached
      ensures Valid() && dirs.Complete() && fresh(all - old(all)) && old(dirs.made) <= dirs.made
      ensures Accounted(dirs, old(dirs.ring), old(dirs.detached), old(dirs.freed))
      ensures forall d | d in dirs.ring || d in dirs.detached :: d in old(dirs.ring) || d in old(dirs.detached) || fresh(d)
    {
      ghost var r, kept, gone, made := dirs.ring, dirs.detached, dirs.freed, dirs.made;
      Act(s);
      StaysComplete(dirs, r, kept, gone, made);
    }

    // Over every run the table and the stack stay in order, and every directory node is
    // in the ring, held by a job, or freed.
    method Run(steps: seq<Step>)
      requires Valid() && dirs.Complete()
      modifies this, all, dirs, dirs.ring, dirs.detached
      ensures Valid() && dirs.Complete() && old(dirs.made) <= dirs.made
      ensures Accounted(dirs, old(dirs.ring), old(dirs.detached), old(dirs.freed))
    {
      for i := 0 to |steps|
        invariant Valid() && dirs.Complete() && fresh(all - old(all)) && old(dirs.made) <= dirs.made
        invariant Accounted(dirs, old(dirs.ring), old(dirs.detached), old(dirs.freed))
        invariant forall d | d in dirs.ring || d in dirs.detached :: d in old(dirs.ring) || d in old(dirs.detached) || fresh(d)
      {
        Execute(steps[i]);
      }
    }
  }

  // A freed directory is out of the stack and no job in the table holds it; one kept
  // out of the stack is held by the leader of a job.
  lemma FreedOrHeld(t: Table, d: Directory)
    requires t.Valid()
    ensures d in t.dirs.freed ==> d !in t.dirs.ring && forall p | p in t.all :: p.cwd != d
    ensures d in t.dirs.detached ==> exists p :: p in t.all && p.leader == p && p.cwd == d
  {
    forall p | p in t.all && p.cwd == d ensures d in t.dirs.ring || d in t.dirs.detached {
      assert p in t.procs;
      var i :| 0 <= i < |t.procs| && t.procs[i] == p;
      assert t.cwds[i] == d;
      assert Counted(t.dirs, t.cwds);
    }
    if d in t.dirs.detached {
      assert Counted(t.dirs, t.cwds) && t.dirs.Valid();
      assert d in t.cwds;
      var i :| 0 <= i < |t.cwds| && t.cwds[i] == d;
      assert t.procs[i].cwd == d;
    }
  }

  lemma ReleaseNone(dirs: Dirs, cwds: seq<Directory?>, i: nat)
    requires Counted(dirs, cwds) && i < |cwds| && cwds[i] == null
    ensures Counted(dirs, Minus(cwds, i))
  {
    MinusCounts(cwds, i);
  }
}
