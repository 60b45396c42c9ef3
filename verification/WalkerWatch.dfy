/**
  Which walkers a window lists, and which it announces. The watch keeps three
  fields; what they mean is said here over the whole history of reads, dismissals
  and resets.
 */
module WalkerWatch {

  datatype Option<T> = None | Some(value: T)

  /** A process id, and everything else a read says about that process. */
  datatype Walker = Walker(pid: nat, details: string)

  datatype Event =
    | GoodRead(walkers: seq<Walker>)
    | FailedRead
    | Dismissal(pid: nat)
    | Cleared

  predicate Lists(walkers: seq<Walker>, pid: nat) {
    exists i | 0 <= i < |walkers| :: walkers[i].pid == pid
  }

  function Pids(walkers: seq<Walker>): set<nat> {
    if walkers == [] then {}
    else Pids(walkers[..|walkers| - 1]) + {walkers[|walkers| - 1].pid}
  }

  lemma {:induction false} PidsAreListed(walkers: seq<Walker>, pid: nat)
    ensures pid in Pids(walkers) <==> Lists(walkers, pid)
  {
    if walkers != [] {
      var before, w := walkers[..|walkers| - 1], walkers[|walkers| - 1];
      PidsAreListed(before, pid);
      ListsAfter(before, w, pid);
      assert walkers == before + [w];
    }
  }

  /** The latest good read since the last reset lists `pid`. */
  ghost predicate ListedLast(history: seq<Event>, pid: nat) {
    exists k | 0 <= k < |history| ::
      && history[k].GoodRead? && Lists(history[k].walkers, pid)
      && forall j | k < j < |history| :: !history[j].GoodRead? && !history[j].Cleared?
  }

  /** `pid` was dismissed, and every good read since lists it, with no reset between. */
  ghost predicate Hidden(history: seq<Event>, pid: nat) {
    exists k | 0 <= k < |history| ::
      && history[k] == Dismissal(pid)
      && forall j | k < j < |history| :: !history[j].Cleared? && LeavesListed(history[j], pid)
  }

  ghost predicate LeavesListed(event: Event, pid: nat) {
    event.GoodRead? ==> Lists(event.walkers, pid)
  }

  /** What the latest good read since the last reset said. */
  ghost function LastRead(history: seq<Event>): seq<Walker> {
    if history == [] then []
    else
      match history[|history| - 1]
      case GoodRead(walkers) => walkers
      case Cleared => []
      case _ => LastRead(history[..|history| - 1])
  }

  lemma ListedLastAfter(history: seq<Event>, event: Event, pid: nat)
    ensures ListedLast(history + [event], pid) <==>
            if event.GoodRead? then Lists(event.walkers, pid)
            else !event.Cleared? && ListedLast(history, pid)
  {
    var longer := history + [event];
    var n := |history|;
    assert longer[n] == event;
    assert forall j | 0 <= j < n :: longer[j] == history[j];
    if event.GoodRead? && Lists(event.walkers, pid) {
      assert longer[n].GoodRead?;
    }
    if !event.GoodRead? && !event.Cleared? && ListedLast(history, pid) {
      var k :| 0 <= k < n && history[k].GoodRead? && Lists(history[k].walkers, pid)
               && forall j | k < j < n :: !history[j].GoodRead? && !history[j].Cleared?;
      assert longer[k].GoodRead?;
    }
  }

  lemma HiddenAfter(history: seq<Event>, event: Event, pid: nat)
    ensures Hidden(history + [event], pid) <==>
            if event.GoodRead? then Lists(event.walkers, pid) && Hidden(history, pid)
            else if event.Dismissal? then event.pid == pid || Hidden(history, pid)
            else event.FailedRead? && Hidden(history, pid)
  {
    var longer := history + [event];
    var n := |history|;
    assert longer[n] == event;
    assert forall j | 0 <= j < n :: longer[j] == history[j];
    if event == Dismissal(pid) {
      assert longer[n] == Dismissal(pid);
    } else if !event.Cleared? && LeavesListed(event, pid) && Hidden(history, pid) {
      var k :| 0 <= k < n && history[k] == Dismissal(pid)
               && forall j | k < j < n :: !history[j].Cleared? && LeavesListed(history[j], pid);
      assert longer[k] == Dismissal(pid);
      assert forall j | k < j < |longer| :: !longer[j].Cleared? && LeavesListed(longer[j], pid);
    }
  }

  /** Those of `walkers` not `dismissed`, in order. */
  function Without(walkers: seq<Walker>, dismissed: set<nat>): seq<Walker> {
    if walkers == [] then []
    else if walkers[0].pid in dismissed then Without(walkers[1..], dismissed)
    else [walkers[0]] + Without(walkers[1..], dismissed)
  }

  /** Exactly the walkers not dismissed are shown. */
  lemma {:induction false} ShownExactly(walkers: seq<Walker>, dismissed: set<nat>)
    ensures forall w :: w in Without(walkers, dismissed) <==> w in walkers && w.pid !in dismissed
  {
    if walkers != [] {
      ShownExactly(walkers[1..], dismissed);
      assert walkers == [walkers[0]] + walkers[1..];
    }
  }

  /** What is shown is the list with the dismissed taken out of it in place: part by part, down to one walker. */
  lemma {:induction false} ShownInPlace(a: seq<Walker>, b: seq<Walker>, dismissed: set<nat>)
    ensures Without(a + b, dismissed) == Without(a, dismissed) + Without(b, dismissed)
    ensures |a| == 1 ==> Without(a, dismissed) == if a[0].pid in dismissed then [] else a
  {
    if a == [] {
      assert a + b == b;
    } else {
      assert (a + b)[1..] == a[1..] + b;
      ShownInPlace(a[1..], b, dismissed);
    }
  }

  /** The walkers not `known` before, each once, where it is first listed. */
  ghost function News(walkers: seq<Walker>, known: set<nat>): seq<Walker> {
    if walkers == [] then []
    else
      var before, w := walkers[..|walkers| - 1], walkers[|walkers| - 1];
      if w.pid in known + Pids(before) then News(before, known) else News(before, known) + [w]
  }

  /** Exactly the unknown pids are news, and none twice. */
  lemma {:induction false} NewsIsNews(walkers: seq<Walker>, known: set<nat>)
    ensures forall pid :: Lists(News(walkers, known), pid) <==> Lists(walkers, pid) && pid !in known
    ensures forall i, j | 0 <= i < j < |News(walkers, known)| ::
              News(walkers, known)[i].pid != News(walkers, known)[j].pid
  {
    if walkers != [] {
      var before, w := walkers[..|walkers| - 1], walkers[|walkers| - 1];
      assert walkers == before + [w];
      NewsIsNews(before, known);
      PidsAreListed(before, w.pid);
      NewsAfter(before, w, known, News(before, known));
    }
  }

  /** Where `pid` is first listed. */
  ghost function First(walkers: seq<Walker>, pid: nat): nat
    requires Lists(walkers, pid)
  {
    if walkers[0].pid == pid then 0 else 1 + First(walkers[1..], pid)
  }

  lemma {:induction false} FirstIsFirst(walkers: seq<Walker>, pid: nat)
    requires Lists(walkers, pid)
    ensures First(walkers, pid) < |walkers| && walkers[First(walkers, pid)].pid == pid
    ensures forall i | 0 <= i < First(walkers, pid) :: walkers[i].pid != pid
  {
    if walkers[0].pid != pid {
      var i :| 0 <= i < |walkers| && walkers[i].pid == pid;
      assert walkers[1..][i - 1].pid == pid;
      FirstIsFirst(walkers[1..], pid);
      assert forall j | 0 < j < |walkers| :: walkers[1..][j - 1] == walkers[j];
    }
  }

  /** The news is in the order of the list, each walker as it is first listed. */
  lemma {:induction false} NewsInOrder(walkers: seq<Walker>, known: set<nat>)
    ensures forall i | 0 <= i < |News(walkers, known)| :: IsFirst(walkers, News(walkers, known)[i])
    ensures forall i, j | 0 <= i < j < |News(walkers, known)| ::
              && IsFirst(walkers, News(walkers, known)[i]) && IsFirst(walkers, News(walkers, known)[j])
              && First(walkers, News(walkers, known)[i].pid) < First(walkers, News(walkers, known)[j].pid)
  {
    if walkers != [] {
      var before, w := walkers[..|walkers| - 1], walkers[|walkers| - 1];
      var news := News(before, known);
      assert walkers == before + [w];
      NewsInOrder(before, known);
      PidsAreListed(before, w.pid);
      forall i | 0 <= i < |news| ensures IsFirst(walkers, news[i]) && First(walkers, news[i].pid) < |before| {
        FirstOfLonger(before, w, news[i].pid);
      }
      forall i | 0 <= i < |news| ensures First(walkers, news[i].pid) == First(before, news[i].pid) {
        FirstOfLonger(before, w, news[i].pid);
      }
      if !Lists(before, w.pid) {
        FirstIsLast(before, w);
      }
    }
  }

  ghost predicate IsFirst(walkers: seq<Walker>, w: Walker) {
    && Lists(walkers, w.pid)
    && First(walkers, w.pid) < |walkers| && walkers[First(walkers, w.pid)] == w
  }

  lemma {:induction false} FirstOfLonger(before: seq<Walker>, w: Walker, pid: nat)
    requires Lists(before, pid)
    ensures Lists(before + [w], pid) && First(before + [w], pid) == First(before, pid) < |before|
    ensures (before + [w])[First(before, pid)] == before[First(before, pid)]
  {
    FirstIsFirst(before, pid);
    ListsAfter(before, w, pid);
    FirstIsFirst(before + [w], pid);
    var a, b := First(before, pid), First(before + [w], pid);
    assert (before + [w])[a].pid == pid;
    assert b < |before| ==> before[b].pid == pid;
  }

  lemma FirstIsLast(before: seq<Walker>, w: Walker)
    requires !Lists(before, w.pid)
    ensures IsFirst(before + [w], w) && First(before + [w], w.pid) == |before|
  {
    ListsAfter(before, w, w.pid);
    FirstIsFirst(before + [w], w.pid);
    assert forall i | 0 <= i < |before| :: (before + [w])[i] == before[i] && before[i].pid != w.pid;
  }

  lemma ListsAfter(walkers: seq<Walker>, w: Walker, pid: nat)
    ensures Lists(walkers + [w], pid) <==> Lists(walkers, pid) || w.pid == pid
  {
    var longer := walkers + [w];
    assert longer[|walkers|] == w;
    if Lists(walkers, pid) {
      var i :| 0 <= i < |walkers| && walkers[i].pid == pid;
      assert longer[i].pid == pid;
    }
  }

  lemma NewsAfter(before: seq<Walker>, w: Walker, known: set<nat>, news: seq<Walker>)
    requires forall pid :: Lists(news, pid) <==> Lists(before, pid) && pid !in known
    ensures forall pid :: Lists(before + [w], pid) <==> Lists(before, pid) || w.pid == pid
    ensures forall pid :: Lists(news + [w], pid) <==> Lists(news, pid) || w.pid == pid
    ensures !Lists(news, w.pid) ==> forall i | 0 <= i < |news| :: news[i].pid != w.pid
  {
    forall pid ensures Lists(before + [w], pid) <==> Lists(before, pid) || w.pid == pid {
      ListsAfter(before, w, pid);
    }
    forall pid ensures Lists(news + [w], pid) <==> Lists(news, pid) || w.pid == pid {
      ListsAfter(news, w, pid);
    }
  }

  /** What reading one walker further adds. */
  lemma OneMore(walkers: seq<Walker>, i: nat, known: set<nat>)
    requires i < |walkers|
    ensures Pids(walkers[..i + 1]) == Pids(walkers[..i]) + {walkers[i].pid}
    ensures News(walkers[..i + 1], known) ==
            if walkers[i].pid in known + Pids(walkers[..i]) then News(walkers[..i], known)
            else News(walkers[..i], known) + [walkers[i]]
  {
    assert walkers[..i + 1] == walkers[..i] + [walkers[i]];
    assert walkers[..i + 1][..i] == walkers[..i];
  }

  class WalkerWatch {
    var seen: set<nat>
    var dismissed: set<nat>
    var last: seq<Walker>
    ghost var history: seq<Event>

    ghost predicate Valid()
      reads this
    {
      && (forall pid :: pid in seen <==> ListedLast(history, pid))
      && (forall pid :: pid in dismissed <==> Hidden(history, pid))
      && last == LastRead(history)
    }

    constructor ()
      ensures Valid() && history == []
    {
      seen, dismissed, last, history := {}, {}, [], [];
    }

    /** Look again. `read` is what the native side answered, or nothing when it threw. */
    method Poll(read: Option<seq<Walker>>) returns (shown: seq<Walker>, started: seq<Walker>)
      requires Valid()
      modifies this
      ensures Valid()
      ensures history == old(history) + [if read.None? then FailedRead else GoodRead(read.value)]
      ensures forall pid :: Lists(started, pid) <==>
                read.Some? && Lists(read.value, pid) && !ListedLast(old(history), pid)
      ensures forall i, j | 0 <= i < j < |started| :: started[i].pid != started[j].pid
      ensures forall w :: w in shown <==> w in LastRead(history) && !Hidden(history, w.pid)
      ensures shown == Without(LastRead(history), dismissed)
      ensures started == if read.None? then [] else News(read.value, old(seen) * Pids(read.value))
      ensures read.None? ==> seen == old(seen) && dismissed == old(dismissed) && last == old(last)
    {
      if read.None? {
        history := history + [FailedRead];
        AfterEvent(old(history), FailedRead);
        ShownExactly(last, dismissed);
        return Without(last, dismissed), [];
      }
      var now := read.value;
      var pids := Pids(now);
      forall pid ensures pid in pids <==> Lists(now, pid) { PidsAreListed(now, pid); }
      seen := seen * pids;
      dismissed := dismissed * pids;
      started := Announce(now);
      NewsIsNews(now, old(seen) * pids);
      last := now;
      history := history + [GoodRead(now)];
      AfterEvent(old(history), GoodRead(now));
      ShownExactly(now, dismissed);
      shown := Without(now, dismissed);
    }

    /** Add every listed pid to `seen`, and return the walkers that were news to it. */
    method Announce(now: seq<Walker>) returns (started: seq<Walker>)
      modifies this`seen
      ensures seen == old(seen) + Pids(now)
      ensures started == News(now, old(seen))
    {
      started := [];
      var i := 0;
      while i < |now|
        invariant 0 <= i <= |now|
        invariant started == News(now[..i], old(seen))
        invariant seen == old(seen) + Pids(now[..i])
      {
        OneMore(now, i, old(seen));
        if now[i].pid !in seen {
          seen := seen + {now[i].pid};
          started := started + [now[i]];
        }
        i := i + 1;
      }
      assert now[..i] == now;
    }

    /** Hide `pid` until a good read does not list it. */
    method Dismiss(pid: nat)
      requires Valid()
      modifies this
      ensures Valid() && history == old(history) + [Dismissal(pid)]
      ensures seen == old(seen) && last == old(last)
    {
      dismissed := dismissed + {pid};
      history := history + [Dismissal(pid)];
      AfterEvent(old(history), Dismissal(pid));
    }

    /** Start over, as for another mount. */
    method Reset()
      requires Valid()
      modifies this
      ensures Valid() && history == old(history) + [Cleared]
      ensures last == []
    {
      seen, dismissed, last := {}, {}, [];
      history := history + [Cleared];
      AfterEvent(old(history), Cleared);
    }
  }

  lemma AfterEvent(history: seq<Event>, event: Event)
    ensures forall pid :: ListedLast(history + [event], pid) <==>
              if event.GoodRead? then Lists(event.walkers, pid)
              else !event.Cleared? && ListedLast(history, pid)
    ensures forall pid :: Hidden(history + [event], pid) <==>
              if event.GoodRead? then Lists(event.walkers, pid) && Hidden(history, pid)
              else if event.Dismissal? then event.pid == pid || Hidden(history, pid)
              else event.FailedRead? && Hidden(history, pid)
    ensures LastRead(history + [event]) ==
            match event
            case GoodRead(walkers) => walkers
            case Cleared => []
            case _ => LastRead(history)
  {
    forall pid { ListedLastAfter(history, event, pid); }
    forall pid { HiddenAfter(history, event, pid); }
    assert (history + [event])[..|history|] == history;
  }
}
