/** The gateway's session bookkeeping: the counters always say how many sessions there are. */
module SessionManager {

  datatype Session = Session(id: string, user: string, maxConcurrent: int)

  datatype Outcome = Registered | TotalReached | UserReached(limit: int)

  function Of(sessions: map<string, Session>, user: string): set<string> {
    set id | id in sessions && sessions[id].user == user
  }

  /** The user's own limit, three when none is set. */
  function Limit(s: Session): int {
    if s.maxConcurrent <= 0 then 3 else s.maxConcurrent
  }

  lemma OfAdded(sessions: map<string, Session>, s: Session, user: string)
    requires s.id !in sessions
    ensures Of(sessions[s.id := s], user) == Of(sessions, user) + (if s.user == user then {s.id} else {})
    ensures s.id !in Of(sessions, user)
  {
  }

  lemma OfRemoved(sessions: map<string, Session>, id: string, user: string)
    requires id in sessions
    ensures Of(sessions - {id}, user) == Of(sessions, user) - {id}
    ensures id in Of(sessions, user) <==> sessions[id].user == user
  {
  }

  /** Every user's counter is the number of their sessions; users without have none. */
  ghost predicate Counted(sessions: map<string, Session>, byUser: map<string, int>) {
    && (forall u :: u in byUser <==> Of(sessions, u) != {})
    && forall u :: u in byUser ==> byUser[u] == |Of(sessions, u)|
  }

  lemma CountedAdded(sessions: map<string, Session>, byUser: map<string, int>, s: Session)
    requires Counted(sessions, byUser) && s.id !in sessions
    ensures var n := |Of(sessions, s.user)| + 1;
            Counted(sessions[s.id := s], byUser[s.user := n]) && |Of(sessions[s.id := s], s.user)| == n
  {
    hide Of;
    var now, n := sessions[s.id := s], |Of(sessions, s.user)| + 1;
    var counters := byUser[s.user := n];
    OfAdded(sessions, s, s.user);
    forall u ensures (u in counters <==> Of(now, u) != {}) && (u in counters ==> counters[u] == |Of(now, u)|) {
      if u != s.user {
        OfAdded(sessions, s, u);
        assert Of(now, u) == Of(sessions, u);
      }
    }
  }

  lemma CountedRemoved(sessions: map<string, Session>, byUser: map<string, int>, id: string)
    requires Counted(sessions, byUser) && id in sessions
    ensures var user := sessions[id].user;
            && user in byUser
            && Counted(sessions - {id}, if byUser[user] <= 1 then byUser - {user} else byUser[user := byUser[user] - 1])
  {
    hide Of;
    var user, now := sessions[id].user, sessions - {id};
    forall u ensures Of(now, u) == Of(sessions, u) - {id} && (id in Of(sessions, u) <==> user == u) {
      OfRemoved(sessions, id, u);
    }
    assert |Of(now, user)| == |Of(sessions, user)| - 1;
    forall u | u != user ensures Of(now, u) == Of(sessions, u) {
    }
  }

  /** A counter taken down, and dropped at zero. */
  function OneFewer(byUser: map<string, int>, user: string): map<string, int> {
    if user in byUser && byUser[user] > 1 then byUser[user := byUser[user] - 1] else byUser - {user}
  }

  lemma CountedRemovedIff(sessions: map<string, Session>, byUser: map<string, int>, id: string, user: string)
    requires Counted(sessions, byUser) && id in sessions
    ensures Counted(sessions - {id}, OneFewer(byUser, user)) <==> sessions[id].user == user
  {
    hide Of;
    var own, now := sessions[id].user, sessions - {id};
    if own == user {
      CountedRemoved(sessions, byUser, id);
    } else {
      OfRemoved(sessions, id, own);
      assert |Of(now, own)| == |Of(sessions, own)| - 1;
    }
  }

  class Manager {
    const maxTotal: int
    var sessions: map<string, Session>
    var byUser: map<string, int>
    var total: int

    /** The counters agree with the table and the total cap is kept. */
    ghost predicate Valid()
      reads this
    {
      total == |sessions| && (sessions == map[] || total <= maxTotal) && Counted(sessions, byUser)
    }

    constructor (maxTotal: int)
      ensures Valid() && sessions == map[] && this.maxTotal == maxTotal
    {
      this.maxTotal := maxTotal;
      sessions, byUser, total := map[], map[], 0;
    }

    /** Session ids are random and not in use. A session is refused exactly when one of the two
        caps is reached; the total cap is looked at first. */
    method Register(s: Session) returns (r: Outcome)
      requires Valid() && s.id !in sessions
      modifies this
      ensures Valid()
      ensures r == if |old(sessions)| >= maxTotal then TotalReached
                   else if |Of(old(sessions), s.user)| >= Limit(s) then UserReached(Limit(s)) else Registered
      ensures r.UserReached? ==> r.limit == if s.maxConcurrent <= 0 then 3 else s.maxConcurrent
      ensures sessions == if r.Registered? then old(sessions)[s.id := s] else old(sessions)
      ensures r.Registered? ==> |Of(sessions, s.user)| <= Limit(s)
    {
      hide Of;
      if total >= maxTotal {
        return TotalReached;
      }
      var perUserMax := Limit(s);
      var have := if s.user in byUser then byUser[s.user] else 0;
      assert have == |Of(sessions, s.user)|;
      if have >= perUserMax {
        return UserReached(perUserMax);
      }
      CountedAdded(sessions, byUser, s);
      sessions := sessions[s.id := s];
      byUser := byUser[s.user := have + 1];
      total := total + 1;
      return Registered;
    }

    /** A second call for one session changes nothing. The counters stay right exactly when the
        user is the session's own: any other name is taken down instead. */
    method Unregister(id: string, user: string)
      requires Valid()
      modifies this
      ensures sessions == old(sessions) - {id} && total == |sessions|
      ensures byUser == if id in old(sessions) then OneFewer(old(byUser), user) else old(byUser)
      ensures Valid() <==> (id in old(sessions) ==> old(sessions)[id].user == user)
    {
      hide Of, Counted;
      if id in sessions {
        CountedRemovedIff(sessions, byUser, id, user);
        SizeWithout(sessions, id);
        sessions := sessions - {id};
        byUser := byUser[user := (if user in byUser then byUser[user] else 0) - 1];
        if byUser[user] <= 0 {
          byUser := byUser - {user};
        }
        assert byUser == OneFewer(old(byUser), user);
        total := total - 1;
      }
    }
  }

  lemma SizeWithout(m: map<string, Session>, id: string)
    requires id in m
    ensures |m - {id}| == |m| - 1
  {
    assert (m - {id}).Keys == m.Keys - {id};
    assert |m| == |m.Keys| && |m - {id}| == |(m - {id}).Keys|;
  }
}
