/** What the order of registration decides: a program is accepted for what it declares and registers, whatever the
    order, except that a registration for a provider may come too early for a declaration
    (RegisterProvider, Register and ValidateRenames in internal/capability/capability.go). */
module RegistryOrder {
  import opened Registry
  import opened Wrappers

  /** The registry after some calls, None where one of them is refused. */
  function Play(calls: seq<Call>): Option<State> {
    if calls == [] then Some(State(map[], map[]))
    else match Play(calls[..|calls| - 1]) case None => None case Some(s) => Step(s, calls[|calls| - 1])
  }

  /** A program starts when every call and the final check of the rename tables pass. */
  predicate Accepts(calls: seq<Call>) { Play(calls).Some? && RenamesFit(Play(calls).value) }

  function Providers(calls: seq<Call>): seq<Provider> {
    if calls == [] then []
    else
      var before, last := Providers(calls[..|calls| - 1]), calls[|calls| - 1];
      if last.Declare? then before + [last.m] else before
  }

  function Operations(calls: seq<Call>): seq<Operation> {
    if calls == [] then []
    else
      var before, last := Operations(calls[..|calls| - 1]), calls[|calls| - 1];
      if last.Operate? then before + last.ops else before
  }

  /** The providers operations are registered for, declared or not. */
  function Operated(calls: seq<Call>): set<string> { set c | c in calls && c.Operate? :: c.p }

  /** Every batch holds operations of its own provider. */
  predicate Addressed(calls: seq<Call>) {
    forall c | c in calls && c.Operate? :: forall op | op in c.ops :: op.provider == c.p
  }

  predicate TooEarly(early: Call, late: Call) {
    early.Operate? && late.Declare? && (early.p == late.m.id || !VendorsAgree(early.p, late.m.id))
  }

  /** No registration for a provider comes before its own declaration, or before that of another one whose vendor
      is spelled otherwise. */
  predicate Timely(calls: seq<Call>) { forall i, j | 0 <= i < j < |calls| :: !TooEarly(calls[i], calls[j]) }

  // ---------------------------------------------------------------- what is declared and registered

  /** Two providers that may both be registered. */
  predicate GetAlong(m: Provider, n: Provider) {
    m.id != n.id && VendorsAgree(m.id, n.id) && Apart(m.id, m.former, n)
  }

  predicate Pairwise<T(!new)>(s: seq<T>, r: (T, T) -> bool) { forall i, j | 0 <= i < j < |s| :: r(s[i], s[j]) }

  predicate DifferInId(o: Operation, q: Operation) { o.id != q.id }

  predicate Suits(o: Operation, m: Provider) { IsValid(o, m) && FitsGroups(o, m) }

  predicate Declares(ms: seq<Provider>, p: string) { exists m | m in ms :: m.id == p }

  /** An operation suits the declaration of its provider, or none where there is none. */
  predicate InPlace(ms: seq<Provider>, ops: seq<Operation>) {
    && (forall o, m | o in ops && m in ms && o.provider == m.id :: Suits(o, m))
    && forall o | o in ops && !Declares(ms, o.provider) :: Suits(o, NO_PROVIDER)
  }

  /** What it takes, whatever the order: a condition on what is declared and registered alone. */
  predicate Harmony(ms: seq<Provider>, ps: set<string>, ops: seq<Operation>) {
    && (forall m | m in ms :: m.sound && ValidProviderId(m.id) && FormerIdsAlone(m))
    && Pairwise(ms, GetAlong) && Pairwise(ops, DifferInId) && InPlace(ms, ops)
    && forall p | p in ps :: ValidProviderId(p)
  }

  /** No operation, and no provider operations are registered for, has an id declared to be a former one. */
  predicate NoneIsFormer(ms: seq<Provider>, ps: set<string>, ops: seq<Operation>) {
    && (forall o, m | o in ops && m in ms :: o.id !in m.renamed)
    && forall p, m | p in ps && m in ms :: p !in m.former
  }

  /** A provider that was not declared is known as one that declares nothing. */
  predicate Known(s: State, ms: seq<Provider>, ps: set<string>, k: string)
    requires k in s.providers
  {
    if Declares(ms, k) then s.providers[k] in ms && s.providers[k].id == k else k in ps && s.providers[k] == NO_PROVIDER
  }

  /** A registry that holds exactly these. */
  ghost predicate Holds(s: State, ms: seq<Provider>, ps: set<string>, ops: seq<Operation>) {
    && (forall k | k in s.providers :: Known(s, ms, ps, k))
    && (forall m | m in ms :: m.id in s.providers && s.providers[m.id] == m)
    && ps <= s.providers.Keys
    && (forall id | id in s.operations :: s.operations[id] in ops && s.operations[id].id == id)
    && forall o | o in ops :: o.id in s.operations && s.operations[o.id] == o
  }

  // ---------------------------------------------------------------- one more call

  lemma PairwiseOneMore<T(!new)>(s: seq<T>, x: T, r: (T, T) -> bool)
    ensures Pairwise(s + [x], r) <==> Pairwise(s, r) && forall y | y in s :: r(y, x)
  {
    var t := s + [x];
    if Pairwise(t, r) {
      forall i, j | 0 <= i < j < |s| ensures r(s[i], s[j]) { assert r(t[i], t[j]); }
      forall y | y in s ensures r(y, x) {
        var i :| 0 <= i < |s| && s[i] == y;
        assert r(t[i], t[|s|]);
      }
    }
  }

  /** What is registered already lets a provider be declared. */
  predicate Welcomes(ps: set<string>, m: Provider) {
    forall p | p in ps :: p != m.id && VendorsAgree(p, m.id) && p !in m.former
  }

  lemma InPlaceOneMore(ms: seq<Provider>, m: Provider, ops: seq<Operation>)
    requires forall o | o in ops :: o.provider != m.id
    ensures InPlace(ms + [m], ops) <==> InPlace(ms, ops)
  {
    forall o | o in ops ensures Declares(ms + [m], o.provider) <==> Declares(ms, o.provider) {
      if n :| n in ms && n.id == o.provider { assert n in ms + [m]; }
    }
    assert forall n :: n in ms + [m] <==> n in ms || n == m;
  }

  lemma HarmonyOneMore(ms: seq<Provider>, ps: set<string>, ops: seq<Operation>, m: Provider)
    requires forall o | o in ops :: o.provider != m.id
    ensures Harmony(ms + [m], ps, ops) <==>
            Harmony(ms, ps, ops) && m.sound && ValidProviderId(m.id) && FormerIdsAlone(m) &&
            forall n | n in ms :: GetAlong(n, m)
  {
    PairwiseOneMore(ms, m, GetAlong);
    InPlaceOneMore(ms, m, ops);
    assert forall n :: n in ms + [m] <==> n in ms || n == m;
  }

  lemma FitsExactly(s: State, ms: seq<Provider>, ps: set<string>, ops: seq<Operation>, m: Provider)
    requires Holds(s, ms, ps, ops)
    ensures (m.id !in s.providers && (forall k | k in s.providers :: VendorsAgree(k, m.id) && Apart(k, s.providers[k].former, m)))
            <==> Welcomes(ps, m) && forall n | n in ms :: GetAlong(n, m)
  {
    forall k | k in s.providers ensures Known(s, ms, ps, k) { }
    if Welcomes(ps, m) && forall n | n in ms :: GetAlong(n, m) {
      forall k | k in s.providers ensures k != m.id && VendorsAgree(k, m.id) && Apart(k, s.providers[k].former, m) {
        if Declares(ms, k) { assert GetAlong(s.providers[k], m); }
      }
    }
  }

  /** A declaration is accepted exactly when it gets along with the providers there and with those that operations
      are registered for. */
  lemma DeclareExactly(s: State, ms: seq<Provider>, ps: set<string>, ops: seq<Operation>, m: Provider)
    requires Holds(s, ms, ps, ops) && Harmony(ms, ps, ops) && forall o | o in ops :: o.provider in ps
    ensures ProviderFits(s, m) <==> Welcomes(ps, m) && Harmony(ms + [m], ps, ops)
    ensures ProviderFits(s, m) ==> Holds(s.(providers := s.providers[m.id := m]), ms + [m], ps, ops)
  {
    FitsExactly(s, ms, ps, ops, m);
    if Welcomes(ps, m) { HarmonyOneMore(ms, ps, ops, m); }
    if ProviderFits(s, m) { HoldsDeclared(s, ms, ps, ops, m); }
  }

  lemma HoldsDeclared(s: State, ms: seq<Provider>, ps: set<string>, ops: seq<Operation>, m: Provider)
    requires Holds(s, ms, ps, ops) && m.id !in s.providers
    ensures Holds(s.(providers := s.providers[m.id := m]), ms + [m], ps, ops)
  {
    var t := s.(providers := s.providers[m.id := m]);
    assert forall n :: n in ms + [m] <==> n in ms || n == m;
    forall k | k in t.providers ensures Known(t, ms + [m], ps, k) {
      if k != m.id {
        assert Known(s, ms, ps, k);
        assert Declares(ms + [m], k) <==> Declares(ms, k);
      }
    }
  }

  lemma PairwiseAppend(ops: seq<Operation>, more: seq<Operation>)
    ensures Pairwise(ops + more, DifferInId) <==>
            Pairwise(ops, DifferInId) && DistinctIds(more) && forall o, q | o in ops && q in more :: o.id != q.id
  {
    var t := ops + more;
    if Pairwise(t, DifferInId) {
      forall i, j | 0 <= i < j < |ops| ensures DifferInId(ops[i], ops[j]) { assert DifferInId(t[i], t[j]); }
      forall i, j | 0 <= i < j < |more| ensures more[i].id != more[j].id {
        assert DifferInId(t[|ops| + i], t[|ops| + j]);
      }
      forall o, q | o in ops && q in more ensures o.id != q.id {
        var i :| 0 <= i < |ops| && ops[i] == o;
        var j :| 0 <= j < |more| && more[j] == q;
        assert DifferInId(t[i], t[|ops| + j]);
      }
    }
  }

  lemma KnownIsHeld(s: State, ms: seq<Provider>, ps: set<string>, ops: seq<Operation>, id: string)
    requires Holds(s, ms, ps, ops)
    ensures id in s.operations ==> exists o :: o in ops && o.id == id
  {
    if id in s.operations { assert s.operations[id] in ops; }
  }

  /** Ids that are new to the registry are those no operation in it has. */
  lemma NewIds(s: State, ms: seq<Provider>, ps: set<string>, ops: seq<Operation>, more: seq<Operation>)
    requires Holds(s, ms, ps, ops)
    ensures (forall q | q in more :: q.id !in s.operations) <==> forall o, q | o in ops && q in more :: o.id != q.id
  {
    if forall o, q | o in ops && q in more :: o.id != q.id {
      forall q | q in more ensures q.id !in s.operations {
        KnownIsHeld(s, ms, ps, ops, q.id);
      }
    }
  }

  /** What the declaration of a provider is in a registry. */
  lemma ProviderIsDeclared(s: State, ms: seq<Provider>, ps: set<string>, ops: seq<Operation>, p: string, o: Operation)
    requires Holds(s, ms, ps, ops) && o.provider == p
    ensures Suits(o, ProviderOf(s, p)) <==>
            (forall m | m in ms && m.id == p :: Suits(o, m)) && (!Declares(ms, p) ==> Suits(o, NO_PROVIDER))
  {
    if p in s.providers { assert Known(s, ms, ps, p); }
  }

  lemma InPlaceAppend(ms: seq<Provider>, ops: seq<Operation>, more: seq<Operation>)
    ensures InPlace(ms, ops + more) <==> InPlace(ms, ops) && InPlace(ms, more)
  {
    assert forall o :: o in ops + more <==> o in ops || o in more;
  }

  /** A batch that is accepted. */
  lemma OperateSoundly(s: State, ms: seq<Provider>, ps: set<string>, ops: seq<Operation>, p: string, more: seq<Operation>)
    requires Holds(s, ms, ps, ops) && Harmony(ms, ps, ops) && RegisterOutcome(s, p, more) == Registered
    ensures Harmony(ms, ps + {p}, ops + more) && Holds(AfterRegister(s, p, more), ms, ps + {p}, ops + more)
    ensures forall o | o in more :: o.provider == p
  {
    CheckExactly(s, p, s.operations, more);
    AddContents(s.operations, more);
    NewIds(s, ms, ps, ops, more);
    PairwiseAppend(ops, more);
    forall o | o in more ensures o.provider == p && Suits(o, ProviderOf(s, p)) {
      assert IsNew(s, p, s.operations, o) && Add(s.operations, more)[o.id] == o;
    }
    SuitingIsInPlace(s, ms, ps, ops, p, more);
    InPlaceAppend(ms, ops, more);
    HoldsMore(s, ms, ps, ops, p, more);
  }

  lemma SuitingIsInPlace(s: State, ms: seq<Provider>, ps: set<string>, ops: seq<Operation>, p: string,
                         more: seq<Operation>)
    requires Holds(s, ms, ps, ops) && forall o | o in more :: o.provider == p
    ensures InPlace(ms, more) <==> forall o | o in more :: Suits(o, ProviderOf(s, p))
  {
    forall o | o in more
      ensures Suits(o, ProviderOf(s, p)) <==>
              (forall m | m in ms && m.id == p :: Suits(o, m)) && (!Declares(ms, p) ==> Suits(o, NO_PROVIDER))
    {
      ProviderIsDeclared(s, ms, ps, ops, p, o);
    }
  }

  lemma HoldsMore(s: State, ms: seq<Provider>, ps: set<string>, ops: seq<Operation>, p: string, more: seq<Operation>)
    requires Holds(s, ms, ps, ops) && DistinctIds(more)
    requires forall o, q | o in ops && q in more :: o.id != q.id
    ensures Holds(AfterRegister(s, p, more), ms, ps + {p}, ops + more)
  {
    var t := AfterRegister(s, p, more);
    AddContents(s.operations, more);
    if p in s.providers { assert t.providers == s.providers; }
    forall k | k in t.providers ensures Known(t, ms, ps + {p}, k) {
      if k in s.providers { assert Known(s, ms, ps, k); }
    }
  }

  /** A batch in harmony with what is there, none of it formerly a tool, is accepted. */
  lemma OperateCompletely(s: State, ms: seq<Provider>, ps: set<string>, ops: seq<Operation>, p: string,
                          more: seq<Operation>)
    requires Holds(s, ms, ps, ops) && (forall o | o in more :: o.provider == p)
    requires Harmony(ms, ps + {p}, ops + more) && NoneIsFormer(ms, ps, more)
    ensures RegisterOutcome(s, p, more) == Registered
  {
    PairwiseAppend(ops, more);
    InPlaceAppend(ms, ops, more);
    NewIds(s, ms, ps, ops, more);
    SuitingIsInPlace(s, ms, ps, ops, p, more);
    forall o | o in more ensures IsNew(s, p, s.operations, o) { NoFormerTool(s, ms, ps, ops, more, o); }
    CheckExactly(s, p, s.operations, more);
    OwnFit(s, ms, ps, ops, p, more);
  }

  lemma NoFormerTool(s: State, ms: seq<Provider>, ps: set<string>, ops: seq<Operation>, more: seq<Operation>, o: Operation)
    requires Holds(s, ms, ps, ops) && NoneIsFormer(ms, ps, more) && o in more
    ensures !IsFormerTool(s, o.id)
  {
    forall k | k in s.providers ensures o.id !in s.providers[k].renamed { assert Known(s, ms, ps, k); }
  }

  lemma OwnFit(s: State, ms: seq<Provider>, ps: set<string>, ops: seq<Operation>, p: string, more: seq<Operation>)
    requires Holds(s, ms, ps, ops) && DistinctIds(more) && InPlace(ms, ops + more)
    ensures GroupsFit(Add(s.operations, more), p, ProviderOf(s, p))
  {
    AddContents(s.operations, more);
    var all := Add(s.operations, more);
    forall id | id in all && all[id].provider == p ensures FitsGroups(all[id], ProviderOf(s, p)) {
      assert all[id] in ops + more;
      ProviderIsDeclared(s, ms, ps, ops, p, all[id]);
    }
  }

  // ---------------------------------------------------------------- all calls

  /** What accepted calls come to. */
  ghost predicate IsSound(calls: seq<Call>, s: State) {
    && Harmony(Providers(calls), Operated(calls), Operations(calls)) && Addressed(calls) && Timely(calls)
    && Holds(s, Providers(calls), Operated(calls), Operations(calls))
  }

  lemma OperatedOneMore(front: seq<Call>, last: Call)
    ensures Operated(front + [last]) == Operated(front) + if last.Operate? then {last.p} else {}
  {
    assert forall c :: c in front + [last] <==> c in front || c == last;
  }

  lemma TimelyOneMore(front: seq<Call>, last: Call)
    ensures Timely(front + [last]) <==>
            Timely(front) && (last.Declare? ==> forall p | p in Operated(front) :: p != last.m.id && VendorsAgree(p, last.m.id))
  {
    var calls := front + [last];
    if Timely(calls) {
      forall i, j | 0 <= i < j < |front| ensures !TooEarly(front[i], front[j]) { assert !TooEarly(calls[i], calls[j]); }
      forall c | c in front ensures !TooEarly(c, last) {
        var i :| 0 <= i < |front| && front[i] == c;
        assert !TooEarly(calls[i], calls[|front|]);
      }
    }
    forall c | c in front && c.Operate? ensures c.p in Operated(front) { }
  }

  lemma {:induction false} OperationsAreOperated(calls: seq<Call>)
    requires Addressed(calls)
    ensures forall o | o in Operations(calls) :: o.provider in Operated(calls)
  {
    if calls != [] {
      var front, last := calls[..|calls| - 1], calls[|calls| - 1];
      assert calls == front + [last];
      OperationsAreOperated(front);
      OperatedOneMore(front, last);
    }
  }

  lemma DeclareIsSound(front: seq<Call>, m: Provider, calls: seq<Call>, s: State)
    requires calls == front + [Declare(m)] && IsSound(front, s) && ProviderFits(s, m)
    ensures IsSound(calls, s.(providers := s.providers[m.id := m]))
  {
    assert calls[..|calls| - 1] == front;
    OperationsAreOperated(front);
    OperatedOneMore(front, Declare(m));
    TimelyOneMore(front, Declare(m));
    DeclareExactly(s, Providers(front), Operated(front), Operations(front), m);
  }

  lemma OperateIsSound(front: seq<Call>, p: string, more: seq<Operation>, calls: seq<Call>, s: State)
    requires calls == front + [Operate(p, more)] && IsSound(front, s) && RegisterOutcome(s, p, more) == Registered
    ensures IsSound(calls, AfterRegister(s, p, more))
  {
    assert calls[..|calls| - 1] == front;
    OperatedOneMore(front, Operate(p, more));
    TimelyOneMore(front, Operate(p, more));
    OperateSoundly(s, Providers(front), Operated(front), Operations(front), p, more);
  }

  lemma LastIsSound(front: seq<Call>, last: Call, calls: seq<Call>, s: State)
    requires calls == front + [last] && IsSound(front, s) && Step(s, last).Some?
    ensures IsSound(calls, Step(s, last).value)
  {
    match last
    case Declare(m) => DeclareIsSound(front, m, calls, s);
    case Operate(p, more) => OperateIsSound(front, p, more, calls, s);
  }

  lemma NothingIsSound()
    ensures IsSound([], State(map[], map[]))
  {
  }

  /** Whatever calls were accepted came in time, their contents are in harmony and the registry holds exactly them. */
  lemma {:induction false} PlaySoundly(calls: seq<Call>)
    requires Play(calls).Some?
    ensures IsSound(calls, Play(calls).value)
  {
    if calls != [] {
      var front, last := calls[..|calls| - 1], calls[|calls| - 1];
      PlaySoundly(front);
      assert calls == front + [last];
      LastIsSound(front, last, calls, Play(front).value);
    } else {
      NothingIsSound();
    }
  }

  predicate Ready(calls: seq<Call>) {
    && Timely(calls) && Addressed(calls) && Harmony(Providers(calls), Operated(calls), Operations(calls))
    && NoneIsFormer(Providers(calls), Operated(calls), Operations(calls))
  }

  lemma ReadyFront(front: seq<Call>, last: Call, calls: seq<Call>)
    requires calls == front + [last] && Ready(calls)
    ensures Ready(front)
  {
    assert calls[..|calls| - 1] == front;
    OperatedOneMore(front, last);
    TimelyOneMore(front, last);
    OperationsAreOperated(front);
    match last
    case Declare(m) => HarmonyOneMore(Providers(front), Operated(front), Operations(front), m);
    case Operate(p, more) =>
      PairwiseAppend(Operations(front), more);
      InPlaceAppend(Providers(front), Operations(front), more);
  }

  lemma LastIsAccepted(front: seq<Call>, last: Call, calls: seq<Call>, s: State)
    requires calls == front + [last] && Ready(calls) && IsSound(front, s)
    ensures Step(s, last).Some?
  {
    assert calls[..|calls| - 1] == front && last in calls;
    OperatedOneMore(front, last);
    TimelyOneMore(front, last);
    OperationsAreOperated(front);
    match last
    case Declare(m) =>
      assert m in Providers(calls);
      DeclareExactly(s, Providers(front), Operated(front), Operations(front), m);
    case Operate(p, more) => OperateCompletely(s, Providers(front), Operated(front), Operations(front), p, more);
  }

  /** Contents in harmony are accepted in whatever order they come in time. */
  lemma {:induction false} PlayCompletely(calls: seq<Call>)
    requires Ready(calls)
    ensures Play(calls).Some?
  {
    if calls != [] {
      var front, last := calls[..|calls| - 1], calls[|calls| - 1];
      assert calls == front + [last];
      ReadyFront(front, last, calls);
      PlayCompletely(front);
      PlaySoundly(front);
      LastIsAccepted(front, last, calls, Play(front).value);
    }
  }

  // ---------------------------------------------------------------- accepted exactly

  lemma SameState(s: State, t: State, ms: seq<Provider>, ps: set<string>, ops: seq<Operation>)
    requires Holds(s, ms, ps, ops) && Holds(t, ms, ps, ops)
    ensures s == t
  {
    assert forall k :: k in s.providers <==> Declares(ms, k) || k in ps;
    forall k | k in s.providers ensures s.providers[k] == t.providers[k] { assert Known(s, ms, ps, k) && Known(t, ms, ps, k); }
    assert s.operations == t.operations;
  }

  function ProvidersById(ms: seq<Provider>): map<string, Provider> {
    if ms == [] then map[] else ProvidersById(ms[..|ms| - 1])[ms[|ms| - 1].id := ms[|ms| - 1]]
  }

  function OperationsById(ops: seq<Operation>): map<string, Operation> {
    if ops == [] then map[] else OperationsById(ops[..|ops| - 1])[ops[|ops| - 1].id := ops[|ops| - 1]]
  }

  /** The registry of what is declared and registered, read off the contents alone. */
  function RegistryOf(ms: seq<Provider>, ps: set<string>, ops: seq<Operation>): State {
    State((map p | p in ps :: NO_PROVIDER) + ProvidersById(ms), OperationsById(ops))
  }

  lemma {:induction false} ProvidersByIdHold(ms: seq<Provider>)
    ensures forall k | k in ProvidersById(ms) :: ProvidersById(ms)[k] in ms && ProvidersById(ms)[k].id == k
    ensures forall m | m in ms :: m.id in ProvidersById(ms)
  {
    if ms != [] {
      assert ms == ms[..|ms| - 1] + [ms[|ms| - 1]];
      ProvidersByIdHold(ms[..|ms| - 1]);
    }
  }

  lemma {:induction false} OperationsByIdHold(ops: seq<Operation>)
    ensures forall id | id in OperationsById(ops) :: OperationsById(ops)[id] in ops && OperationsById(ops)[id].id == id
    ensures forall o | o in ops :: o.id in OperationsById(ops)
  {
    if ops != [] {
      assert ops == ops[..|ops| - 1] + [ops[|ops| - 1]];
      OperationsByIdHold(ops[..|ops| - 1]);
    }
  }

  lemma PairwiseRelates<T(!new)>(s: seq<T>, r: (T, T) -> bool, x: T, y: T)
    requires Pairwise(s, r) && x in s && y in s && x != y
    ensures r(x, y) || r(y, x)
  {
    var i :| 0 <= i < |s| && s[i] == x;
    var j :| 0 <= j < |s| && s[j] == y;
    if i < j { assert r(s[i], s[j]); } else { assert r(s[j], s[i]); }
  }

  lemma DeclaredIsById(ms: seq<Provider>, m: Provider)
    requires Pairwise(ms, GetAlong) && m in ms
    ensures m.id in ProvidersById(ms) && ProvidersById(ms)[m.id] == m
  {
    ProvidersByIdHold(ms);
    if ProvidersById(ms)[m.id] != m { PairwiseRelates(ms, GetAlong, ProvidersById(ms)[m.id], m); }
  }

  lemma RegisteredIsById(ops: seq<Operation>, o: Operation)
    requires Pairwise(ops, DifferInId) && o in ops
    ensures o.id in OperationsById(ops) && OperationsById(ops)[o.id] == o
  {
    OperationsByIdHold(ops);
    if OperationsById(ops)[o.id] != o { PairwiseRelates(ops, DifferInId, OperationsById(ops)[o.id], o); }
  }

  lemma RegistryOfHolds(ms: seq<Provider>, ps: set<string>, ops: seq<Operation>)
    requires Pairwise(ms, GetAlong) && Pairwise(ops, DifferInId)
    ensures Holds(RegistryOf(ms, ps, ops), ms, ps, ops)
  {
    var s := RegistryOf(ms, ps, ops);
    ProvidersByIdHold(ms);
    OperationsByIdHold(ops);
    forall m | m in ms ensures m.id in s.providers && s.providers[m.id] == m { DeclaredIsById(ms, m); }
    forall o | o in ops ensures o.id in s.operations && s.operations[o.id] == o { RegisteredIsById(ops, o); }
    forall k | k in s.providers ensures Known(s, ms, ps, k) { KnownById(ms, ps, ops, k); }
  }

  lemma KnownById(ms: seq<Provider>, ps: set<string>, ops: seq<Operation>, k: string)
    requires Pairwise(ms, GetAlong) && k in RegistryOf(ms, ps, ops).providers
    ensures Known(RegistryOf(ms, ps, ops), ms, ps, k)
  {
    ProvidersByIdHold(ms);
    if k in ProvidersById(ms) {
      assert Declares(ms, k);
    } else if m :| m in ms && m.id == k {
      DeclaredIsById(ms, m);
    }
  }

  lemma HeldIsRegistryOf(s: State, ms: seq<Provider>, ps: set<string>, ops: seq<Operation>)
    requires Holds(s, ms, ps, ops) && Pairwise(ms, GetAlong) && Pairwise(ops, DifferInId)
    ensures s == RegistryOf(ms, ps, ops)
  {
    RegistryOfHolds(ms, ps, ops);
    SameState(s, RegistryOf(ms, ps, ops), ms, ps, ops);
  }

  /** A condition on what is declared and registered alone. */
  predicate ContentsFit(calls: seq<Call>) {
    && Addressed(calls) && Harmony(Providers(calls), Operated(calls), Operations(calls))
    && NoneIsFormer(Providers(calls), Operated(calls), Operations(calls))
    && RenamesFit(RegistryOf(Providers(calls), Operated(calls), Operations(calls)))
  }

  /** Accepted rename tables name no registered operation, and former ids no provider operations are registered for. */
  lemma AcceptedHasNoFormer(s: State, ms: seq<Provider>, ps: set<string>, ops: seq<Operation>)
    requires Holds(s, ms, ps, ops) && RenamesFit(s)
    ensures NoneIsFormer(ms, ps, ops)
  {
    forall o, m | o in ops && m in ms ensures o.id !in m.renamed {
      assert RenamesOfFit(s, m.id);
      assert o.id in s.providers[m.id].renamed ==> RenameFits(s, m.id, o.id);
    }
    forall p, m | p in ps && m in ms ensures p !in m.former {
      assert RenamesOfFit(s, m.id) && p in s.providers;
      assert p != m.id ==> Apart(p, s.providers[p].former, m);
    }
  }

  /** A program starts exactly when its contents fit and its calls come in time. */
  lemma AcceptedExactly(calls: seq<Call>)
    ensures Accepts(calls) <==> ContentsFit(calls) && Timely(calls)
  {
    if Play(calls).Some? {
      var s := Play(calls).value;
      PlaySoundly(calls);
      if RenamesFit(s) {
        AcceptedHasNoFormer(s, Providers(calls), Operated(calls), Operations(calls));
      }
      HeldIsRegistryOf(s, Providers(calls), Operated(calls), Operations(calls));
    } else if ContentsFit(calls) && Timely(calls) {
      PlayCompletely(calls);
    }
  }

  /** In every run: a registration that comes too early for a declaration makes it fail. */
  lemma OutOfTurnIsRefused(calls: seq<Call>, i: nat, j: nat)
    requires i < j < |calls| && TooEarly(calls[i], calls[j])
    ensures Play(calls).None?
  {
    if Play(calls).Some? { PlaySoundly(calls); }
  }

  // ---------------------------------------------------------------- the same contents

  lemma {:induction false} TwoPlaces<T>(s: seq<T>, x: T) returns (i: nat, j: nat)
    requires multiset(s)[x] >= 2
    ensures i < j < |s| && s[i] == x == s[j]
  {
    var front, last := s[..|s| - 1], s[|s| - 1];
    assert s == front + [last];
    if last == x {
      assert x in multiset(front);
      i :| 0 <= i < |front| && front[i] == x;
      j := |front|;
    } else {
      i, j := TwoPlaces(front, x);
    }
  }

  lemma CountTwice<T>(s: seq<T>, i: nat, j: nat)
    requires i < j < |s| && s[i] == s[j]
    ensures multiset(s)[s[i]] >= 2
  {
    assert s == s[..j] + [s[j]] + s[j + 1..];
    assert s[..j][i] == s[i];
    assert s[i] in multiset(s[..j]);
  }

  /** A symmetric relation no value has to itself holds between all of a list in whatever order it is. */
  lemma PairwisePermutes<T(!new)>(s: seq<T>, t: seq<T>, r: (T, T) -> bool)
    requires multiset(s) == multiset(t) && Pairwise(s, r)
    requires forall x, y :: r(x, y) == r(y, x)
    requires forall x :: !r(x, x)
    ensures Pairwise(t, r)
  {
    forall i, j | 0 <= i < j < |t| ensures r(t[i], t[j]) { PairInBoth(s, t, r, i, j); }
  }

  lemma PairInBoth<T(!new)>(s: seq<T>, t: seq<T>, r: (T, T) -> bool, i: nat, j: nat)
    requires multiset(s) == multiset(t) && Pairwise(s, r) && i < j < |t|
    requires forall x, y :: r(x, y) == r(y, x)
    requires forall x :: !r(x, x)
    ensures r(t[i], t[j])
  {
    assert t[i] in multiset(s) && t[j] in multiset(s);
    var a :| 0 <= a < |s| && s[a] == t[i];
    var b :| 0 <= b < |s| && s[b] == t[j];
    if a == b {
      CountTwice(t, i, j);
      var c, d := TwoPlaces(s, t[i]);
    }
  }

  lemma SameElements<T>(s: seq<T>, t: seq<T>)
    requires multiset(s) == multiset(t)
    ensures forall x :: x in s <==> x in t
  {
    forall x ensures x in s <==> x in t { assert x in s <==> x in multiset(s); }
  }

  /** The same declarations, operations and providers operated for, in any order and grouped in any way. */
  ghost predicate SameContents(a: seq<Call>, b: seq<Call>) {
    && multiset(Providers(a)) == multiset(Providers(b)) && multiset(Operations(a)) == multiset(Operations(b))
    && Operated(a) == Operated(b)
  }

  lemma HarmonyPermutes(ms: seq<Provider>, ns: seq<Provider>, ps: set<string>, ops: seq<Operation>, qs: seq<Operation>)
    requires multiset(ms) == multiset(ns) && multiset(ops) == multiset(qs) && Harmony(ms, ps, ops)
    ensures Harmony(ns, ps, qs)
  {
    SameElements(ms, ns);
    SameElements(ops, qs);
    PairwisePermutes(ms, ns, GetAlong);
    PairwisePermutes(ops, qs, DifferInId);
    forall p ensures Declares(ms, p) <==> Declares(ns, p) { SameDeclared(ms, ns, p); }
  }

  lemma SameDeclared(ms: seq<Provider>, ns: seq<Provider>, p: string)
    requires forall m :: m in ms <==> m in ns
    ensures Declares(ms, p) <==> Declares(ns, p)
  {
    if m :| m in ms && m.id == p { assert m in ns; }
    if n :| n in ns && n.id == p { assert n in ms; }
  }

  lemma HoldsPermutes(s: State, ms: seq<Provider>, ns: seq<Provider>, ps: set<string>, ops: seq<Operation>,
                      qs: seq<Operation>)
    requires multiset(ms) == multiset(ns) && multiset(ops) == multiset(qs) && Holds(s, ms, ps, ops)
    ensures Holds(s, ns, ps, qs)
  {
    SameElements(ms, ns);
    SameElements(ops, qs);
    forall k | k in s.providers ensures Known(s, ns, ps, k) {
      assert Known(s, ms, ps, k);
      SameDeclared(ms, ns, k);
    }
  }

  lemma ContentsDecide(a: seq<Call>, b: seq<Call>)
    requires SameContents(a, b) && ContentsFit(a) && Addressed(b)
    ensures ContentsFit(b)
  {
    var ms, ns, ps, ops, qs := Providers(a), Providers(b), Operated(a), Operations(a), Operations(b);
    HarmonyPermutes(ms, ns, ps, ops, qs);
    SameElements(ms, ns);
    SameElements(ops, qs);
    RegistryOfHolds(ms, ps, ops);
    HoldsPermutes(RegistryOf(ms, ps, ops), ms, ns, ps, ops, qs);
    HeldIsRegistryOf(RegistryOf(ms, ps, ops), ns, ps, qs);
  }

  lemma SameContentsSameState(a: seq<Call>, b: seq<Call>)
    requires SameContents(a, b) && Play(a).Some? && Play(b).Some?
    ensures Play(a) == Play(b)
  {
    PlaySoundly(a);
    PlaySoundly(b);
    HoldsPermutes(Play(a).value, Providers(a), Providers(b), Operated(a), Operations(a), Operations(b));
    SameState(Play(a).value, Play(b).value, Providers(b), Operated(b), Operations(b));
  }

  /** With the same declared and registered, in any order and however operations are grouped into calls, a program
      starts exactly when its calls come in time, and with the same registry. */
  lemma OrderIsNotSeen(a: seq<Call>, b: seq<Call>)
    requires SameContents(a, b) && Addressed(b) && Accepts(a)
    ensures Accepts(b) <==> Timely(b)
    ensures Accepts(b) ==> Play(a) == Play(b)
  {
    AcceptedExactly(a);
    AcceptedExactly(b);
    ContentsDecide(a, b);
    if Accepts(b) { SameContentsSameState(a, b); }
  }

  // ---------------------------------------------------------------- two orders of the same calls

  lemma {:induction false} ProvidersConcat(a: seq<Call>, b: seq<Call>)
    ensures Providers(a + b) == Providers(a) + Providers(b)
    decreases |b|
  {
    if b == [] {
      assert a + b == a;
    } else {
      var front, last := b[..|b| - 1], b[|b| - 1];
      assert (a + b)[..|a + b| - 1] == a + front && (a + b)[|a + b| - 1] == last;
      ProvidersConcat(a, front);
    }
  }

  lemma {:induction false} OperationsConcat(a: seq<Call>, b: seq<Call>)
    ensures Operations(a + b) == Operations(a) + Operations(b)
    decreases |b|
  {
    if b == [] {
      assert a + b == a;
    } else {
      var front, last := b[..|b| - 1], b[|b| - 1];
      assert (a + b)[..|a + b| - 1] == a + front && (a + b)[|a + b| - 1] == last;
      OperationsConcat(a, front);
    }
  }

  lemma Around<T>(x: seq<T>, y: seq<T>, z: seq<T>)
    ensures multiset(x + y + z) == multiset(x + z) + multiset(y)
  {
  }

  lemma ConcatThree(x: seq<Call>, y: seq<Call>, z: seq<Call>)
    ensures Providers(x + y + z) == Providers(x) + Providers(y) + Providers(z)
    ensures Operations(x + y + z) == Operations(x) + Operations(y) + Operations(z)
  {
    ProvidersConcat(x + y, z);
    ProvidersConcat(x, y);
    OperationsConcat(x + y, z);
    OperationsConcat(x, y);
  }

  /** What calls hold, but for one of them. */
  lemma WithoutOne(x: seq<Call>, c: Call, z: seq<Call>)
    ensures multiset(Providers(x + [c] + z)) == multiset(Providers(x + z)) + multiset(Providers([c]))
    ensures multiset(Operations(x + [c] + z)) == multiset(Operations(x + z)) + multiset(Operations([c]))
  {
    ConcatThree(x, [c], z);
    ProvidersConcat(x, z);
    OperationsConcat(x, z);
    Around(Providers(x), Providers([c]), Providers(z));
    Around(Operations(x), Operations([c]), Operations(z));
  }

  lemma {:induction false} SameCallsSameContents(a: seq<Call>, b: seq<Call>)
    requires multiset(a) == multiset(b)
    ensures multiset(Providers(a)) == multiset(Providers(b)) && multiset(Operations(a)) == multiset(Operations(b))
    decreases |a|
  {
    if a == [] {
      assert |multiset(b)| == 0;
    } else {
      var c, rest := a[0], a[1..];
      assert a == [] + [c] + rest && [] + rest == rest;
      var x, z := TakeOut(a, b);
      Around(x, [c], z);
      WithoutOne([], c, rest);
      WithoutOne(x, c, z);
      SameCallsSameContents(rest, x + z);
    }
  }

  lemma TakeOut(a: seq<Call>, b: seq<Call>) returns (x: seq<Call>, z: seq<Call>)
    requires multiset(a) == multiset(b) && a != []
    ensures b == x + [a[0]] + z && multiset(x + z) == multiset(a[1..])
  {
    assert a == [a[0]] + a[1..];
    assert a[0] in multiset(b);
    var i :| 0 <= i < |b| && b[i] == a[0];
    x, z := b[..i], b[i + 1..];
    assert b == x + [a[0]] + z;
    Around(x, [a[0]], z);
    assert multiset(a[1..]) == multiset(a) - multiset{a[0]};
    assert multiset(x + z) == multiset(b) - multiset{a[0]};
  }

  lemma SameCalls(a: seq<Call>, b: seq<Call>)
    requires multiset(a) == multiset(b)
    ensures SameContents(a, b) && (Addressed(a) <==> Addressed(b))
  {
    SameCallsSameContents(a, b);
    SameElements(a, b);
  }

  /** Two orders of the same calls are accepted alike exactly when no order is, for what they declare and register,
      or both come in time, or neither does. */
  lemma OrderIsSeenExactly(a: seq<Call>, b: seq<Call>)
    requires multiset(a) == multiset(b)
    ensures (Accepts(a) <==> Accepts(b)) <==> (ContentsFit(a) ==> (Timely(a) <==> Timely(b)))
    ensures Accepts(a) && Accepts(b) ==> Play(a) == Play(b)
  {
    SameCalls(a, b);
    SameCalls(b, a);
    AcceptedExactly(a);
    AcceptedExactly(b);
    if ContentsFit(a) { ContentsDecide(a, b); }
    if ContentsFit(b) { ContentsDecide(b, a); }
    if Accepts(a) && Accepts(b) { SameContentsSameState(a, b); }
  }

  /** Operations come after the declaration of the provider they are registered for. */
  predicate InTurn(calls: seq<Call>) {
    forall i | 0 <= i < |calls| && calls[i].Operate? ::
      exists j :: 0 <= j < i && calls[j].Declare? && calls[j].m.id == calls[i].p
  }

  /** Where every provider is declared, before its operations, every order comes in time. */
  lemma InTurnIsTimely(calls: seq<Call>)
    requires InTurn(calls) && ContentsFit(calls)
    ensures Timely(calls)
  {
    forall i, j | 0 <= i < j < |calls| ensures !TooEarly(calls[i], calls[j]) {
      if calls[i].Operate? && calls[j].Declare? {
        var k :| 0 <= k < i && calls[k].Declare? && calls[k].m.id == calls[i].p;
        TwoDeclared(calls, k, j);
      }
    }
  }

  /** Where a declaration stands among the declarations. */
  lemma DeclaredAt(calls: seq<Call>, k: nat)
    requires k < |calls| && calls[k].Declare?
    ensures |Providers(calls[..k])| < |Providers(calls)| && Providers(calls)[|Providers(calls[..k])|] == calls[k].m
  {
    assert calls == calls[..k] + ([calls[k]] + calls[k + 1..]);
    ProvidersConcat(calls[..k], [calls[k]] + calls[k + 1..]);
    ProvidersConcat([calls[k]], calls[k + 1..]);
    assert Providers([calls[k]]) == [calls[k].m];
  }

  lemma TwoDeclared(calls: seq<Call>, k: nat, j: nat)
    requires k < j < |calls| && calls[k].Declare? && calls[j].Declare? && Pairwise(Providers(calls), GetAlong)
    ensures GetAlong(calls[k].m, calls[j].m)
  {
    DeclaredAt(calls, k);
    DeclaredAt(calls, j);
    DeclaredAt(calls[..j], k);
    assert calls[..j][..k] == calls[..k];
  }

  /** The order can be seen where operations are registered for a provider nobody declares. */
  lemma UndeclaredProviderIsSeen()
    ensures exists m: Provider, p: string :: Accepts([Declare(m), Operate(p, [])]) && !Accepts([Operate(p, []), Declare(m)])
  {
    DottedId();
    SeenWhereVendorsDiffer(Provider("a", false, [], [], map[], {}, true), "a.b");
  }

  lemma SeenWhereVendorsDiffer(m: Provider, p: string)
    requires m == Provider(m.id, false, [], [], map[], {}, true) && ValidProviderId(m.id) && ValidProviderId(p)
    requires m.id != p && !VendorsAgree(p, m.id)
    ensures Accepts([Declare(m), Operate(p, [])]) && !Accepts([Operate(p, []), Declare(m)])
  {
    var good, bad := [Declare(m), Operate(p, [])], [Operate(p, []), Declare(m)];
    assert good[..1] == [Declare(m)] && good[1] == Operate(p, []);
    PlayOne(Declare(m));
    var s := State(map[m.id := m], map[]);
    assert ProviderFits(State(map[], map[]), m);
    assert Play(good) == Some(AfterRegister(s, p, []));
    NothingRenamedFits(s, m, p);
    OutOfTurnIsRefused(bad, 0, 1);
  }

  lemma NothingRenamedFits(s: State, m: Provider, p: string)
    requires s == State(map[m.id := m], map[]) && m.former == [] && m.renamed == map[] && p != m.id
    ensures RenamesFit(AfterRegister(s, p, []))
  {
  }

  lemma PlayOne(call: Call)
    ensures Play([call]) == Step(State(map[], map[]), call)
  {
    assert [call][..0] == [];
  }

  lemma DottedId()
    ensures ValidProviderId("a") && ValidProviderId("a.b") && !VendorsAgree("a.b", "a") && "a.b" != "a"
  {
    assert |"a.b"| != |"a"| && ValidSegment("a") && ValidSegment("b");
    assert "a.b"[1] == '.' && "a.b"[..1] == "a" && "a.b"[1 + 1..] == "b";
    assert "a.b"[1..] == ".b" && "a"[1..] == "" && ".b"[1..] == "b" && "b"[1..] == "";
    assert Dots("b") == 0 && Dots(".b") == 1 && Dots("a.b") == 1 && Dots("a") == 0;
  }
}
