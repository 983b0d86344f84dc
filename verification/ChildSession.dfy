/** `startDebugging`: which requests spawn a child proxy, and how large the tree of proxies that
    grows from one root can get. */
module ChildSession {
  import opened Wrappers
  import opened Radix

  datatype BackendKind = Stdio | Tcp

  /** What a rule builds its child backend from. */
  datatype ChildBackend = StdioTemplate | TcpTemplate | ParentBackend | InheritParentStdio

  /** `needs` lists the paths the rule's backend and request templates mention. */
  datatype Rule = Rule(
    request: Option<string>,
    exists_: seq<string>,
    parentBackends: seq<BackendKind>,
    childBackend: ChildBackend,
    needs: seq<string>)

  datatype Config = Config(autoSpawn: bool, maxChildren: nat, rules: seq<Rule>, unsupportedMessage: Option<string>)

  datatype Parent = Parent(backend: BackendKind, adapterCmd: seq<string>, tcpEndpoint: Option<string>)

  /** `paths` holds the dotted paths present in the request's arguments. */
  datatype Args = Args(request: string, paths: set<string>)

  datatype SpawnPlan = SpawnPlan(rule: nat, childDepth: nat)

  datatype Refusal =
    | Disabled
    | MaxDepth
    | MaxChildren
    | NoRule(message: Option<string>)
    | NoTcpEndpoint
    | NoAdapterCommand
    | PathNotFound

  predicate RuleMatches(rule: Rule, args: Args, parent: Parent) {
    && (rule.request.Some? ==> args.request == rule.request.value)
    && (forall path :: path in rule.exists_ ==> path in args.paths)
    && (rule.parentBackends == [] || parent.backend in rule.parentBackends)
  }

  predicate BackendCompatible(rule: Rule, parent: Parent) {
    match rule.childBackend
    case ParentBackend => parent.backend == Tcp
    case InheritParentStdio => parent.backend == Stdio
    case _ => true
  }

  predicate Eligible(rule: Rule, args: Args, parent: Parent) {
    RuleMatches(rule, args, parent) && BackendCompatible(rule, parent)
  }

  /** The first eligible rule from `i` on. */
  function FindRule(rules: seq<Rule>, args: Args, parent: Parent, i: nat): (found: Option<nat>)
    requires i <= |rules|
    ensures found.Some? ==> found.value < |rules|
    decreases |rules| - i
  {
    if i == |rules| then None
    else if Eligible(rules[i], args, parent) then Some(i)
    else FindRule(rules, args, parent, i + 1)
  }

  const EMIT_FLAG := "--emit-start-debugging"

  function StripEmitFlag(cmd: seq<string>): seq<string> {
    if cmd == [] then []
    else (if cmd[0] == EMIT_FLAG then [] else [cmd[0]]) + StripEmitFlag(cmd[1..])
  }

  /** Why a chosen rule's templates cannot be filled in, if they cannot. */
  function BuildProblem(rule: Rule, args: Args, parent: Parent): Option<Refusal> {
    if rule.childBackend == ParentBackend && parent.tcpEndpoint.None? then Some(NoTcpEndpoint)
    else if rule.childBackend == InheritParentStdio && StripEmitFlag(parent.adapterCmd) == []
    then Some(NoAdapterCommand)
    else if exists path :: path in rule.needs && path !in args.paths then Some(PathNotFound)
    else None
  }

  function ResolveChildSpawn(config: Config, remainingDepth: nat, activeChildren: nat, parent: Parent, args: Args)
    : Result<SpawnPlan, Refusal>
  {
    if !config.autoSpawn then Err(Disabled)
    else if remainingDepth == 0 then Err(MaxDepth)
    else if activeChildren >= config.maxChildren then Err(MaxChildren)
    else
      match FindRule(config.rules, args, parent, 0)
      case None => Err(NoRule(config.unsupportedMessage))
      case Some(i) =>
        var problem := BuildProblem(config.rules[i], args, parent);
        if problem.Some? then Err(problem.value) else Ok(SpawnPlan(i, remainingDepth - 1))
  }

  lemma {:induction false} FindsFirstEligible(rules: seq<Rule>, args: Args, parent: Parent, from: nat)
    requires from <= |rules|
    ensures match FindRule(rules, args, parent, from)
            case Some(i) =>
              && from <= i < |rules| && Eligible(rules[i], args, parent)
              && forall j :: from <= j < i ==> !Eligible(rules[j], args, parent)
            case None => forall j :: from <= j < |rules| ==> !Eligible(rules[j], args, parent)
    decreases |rules| - from
  {
    if from < |rules| {
      FindsFirstEligible(rules, args, parent, from + 1);
    }
  }

  lemma {:induction false} StripKeeps(cmd: seq<string>, word: string)
    ensures word in StripEmitFlag(cmd) <==> word in cmd && word != "--emit-start-debugging"
  {
    if cmd != [] {
      StripKeeps(cmd[1..], word);
      assert cmd == [cmd[0]] + cmd[1..];
    }
  }

  /** Removing the flag leaves a command exactly if some word is another one. */
  lemma FlagAlone(cmd: seq<string>)
    ensures StripEmitFlag(cmd) != [] <==> exists word :: word in cmd && word != "--emit-start-debugging"
  {
    var kept := StripEmitFlag(cmd);
    if kept != [] {
      assert kept[0] in kept;
      StripKeeps(cmd, kept[0]);
    }
    if word :| word in cmd && word != "--emit-start-debugging" {
      StripKeeps(cmd, word);
    }
  }

  /** A rule's templates can be filled in if and only if what its backend is built from is there, and
      every path they mention is present. */
  lemma FilledInExactly(rule: Rule, args: Args, parent: Parent)
    ensures BuildProblem(rule, args, parent) == None <==>
      && (rule.childBackend == ParentBackend ==> parent.tcpEndpoint.Some?)
      && (rule.childBackend == InheritParentStdio ==> 
           exists word :: word in parent.adapterCmd && word != "--emit-start-debugging")
      && (forall path :: path in rule.needs ==> path in args.paths)
  {
    FlagAlone(parent.adapterCmd);
  }

  /** A request is granted if and only if spawning is on, neither budget is used up, and the first
      eligible rule can be filled in; the child gets one level less. */
  lemma GrantedExactly(config: Config, depth: nat, active: nat, parent: Parent, args: Args, plan: SpawnPlan)
    ensures ResolveChildSpawn(config, depth, active, parent, args) == Ok(plan) <==>
      && config.autoSpawn && depth > 0 && active < config.maxChildren
      && plan.childDepth + 1 == depth
      && plan.rule < |config.rules| && Eligible(config.rules[plan.rule], args, parent)
      && (forall j :: 0 <= j < plan.rule ==> !Eligible(config.rules[j], args, parent))
      && BuildProblem(config.rules[plan.rule], args, parent) == None
  {
    FindsFirstEligible(config.rules, args, parent, 0);
  }

  /** One proxy's handling of `startDebugging`. */
  class ChildSessionBridge {
    const config: Config
    const remainingDepth: nat
    var activeChildren: nat

    constructor (config: Config, remainingDepth: nat)
      ensures this.config == config && this.remainingDepth == remainingDepth && activeChildren == 0
    {
      this.config, this.remainingDepth, activeChildren := config, remainingDepth, 0;
    }

    /** `args` is missing when the request could not be decoded; `ready` is whether a child process
        was started and reported ready.  The response is a success exactly when a child was counted. */
    method HandleStartDebugging(args: Option<Args>, parent: Parent, ready: bool)
        returns (success: bool, spawned: Option<SpawnPlan>)
      modifies this
      ensures success <==> spawned.Some?
      ensures spawned == Granted(config, remainingDepth, old(activeChildren), parent, args, ready)
      ensures activeChildren == old(activeChildren) + if success then 1 else 0
      ensures old(activeChildren) <= config.maxChildren ==> activeChildren <= config.maxChildren
    {
      match args {
        case None =>
          return false, None;
        case Some(a) =>
          var plan := ResolveChildSpawn(config, remainingDepth, activeChildren, parent, a);
          match plan {
            case Err(_) =>
              return false, None;
            case Ok(p) =>
              if !ready {
                return false, None;
              }
              activeChildren := activeChildren + 1;
              return true, Some(p);
          }
      }
    }
  }

  function Granted(config: Config, depth: nat, active: nat, parent: Parent, args: Option<Args>, ready: bool)
    : Option<SpawnPlan>
  {
    if args.None? || !ready then None
    else
      match ResolveChildSpawn(config, depth, active, parent, args.value)
      case Ok(plan) => Some(plan)
      case Err(_) => None
  }

  // ----- the tree of proxies -------------------------------------------------------------------

  /** A proxy, the depth it was started with, every child it ever counted, and every child process
      it started that never reported ready: those are neither counted nor stopped. */
  datatype Proxy = Proxy(remaining: nat, children: seq<Proxy>, strays: seq<Proxy>)

  function NewProxy(remaining: nat): Proxy {
    Proxy(remaining, [], [])
  }

  /** What becomes of a child process. */
  datatype Outcome = Ready | NeverReady | NotStarted

  /** From a proxy to one of the processes it started. */
  datatype Link = Child(index: nat) | Stray(index: nat)

  /** A request arriving at the proxy reached by `path` from the root. */
  datatype Request = Request(path: seq<Link>, config: Config, parent: Parent, args: Option<Args>, outcome: Outcome)

  /** A child proxy is started with the depth its parent planned for it, and counts from zero. */
  function Handle(p: Proxy, path: seq<Link>, r: Request): Proxy
    decreases |path|, 0
  {
    if path == [] then
      match Granted(r.config, p.remaining, |p.children|, r.parent, r.args, !r.outcome.NotStarted?)
      case Some(plan) =>
        if r.outcome.Ready? then p.(children := p.children + [NewProxy(plan.childDepth)])
        else p.(strays := p.strays + [NewProxy(plan.childDepth)])
      case None => p
    else
      match path[0]
      case Child(i) => if i < |p.children| then p.(children := HandleIn(p.children, i, path[1..], r)) else p
      case Stray(i) => if i < |p.strays| then p.(strays := HandleIn(p.strays, i, path[1..], r)) else p
  }

  function HandleIn(ps: seq<Proxy>, i: nat, path: seq<Link>, r: Request): seq<Proxy>
    requires i < |ps|
    decreases |path|, 1
  {
    ps[i := Handle(ps[i], path, r)]
  }

  /** Requests of the whole tree, handled one after the other in any order. */
  function Grow(p: Proxy, requests: seq<Request>): Proxy
    decreases |requests|
  {
    if requests == [] then p
    else
      var last := requests[|requests| - 1];
      Handle(Grow(p, requests[..|requests| - 1]), last.path, last)
  }

  /** Every proxy counts at most `m` children, and every process is started with one level less
      than the proxy that started it. */
  ghost predicate Bounded(p: Proxy, m: nat)
    decreases p, 1
  {
    && |p.children| <= m
    && AllBelow(p.remaining, p.children, m)
    && AllBelow(p.remaining, p.strays, m)
  }

  ghost predicate AllBelow(remaining: nat, ps: seq<Proxy>, m: nat)
    decreases ps, 0
  {
    forall i :: 0 <= i < |ps| ==> remaining > 0 && ps[i].remaining == remaining - 1 && Bounded(ps[i], m)
  }

  lemma {:induction false} HandleKeepsBounds(p: Proxy, path: seq<Link>, r: Request, m: nat)
    requires Bounded(p, m) && r.config.maxChildren == m
    ensures Bounded(Handle(p, path, r), m) && Handle(p, path, r).remaining == p.remaining
    decreases |path|, 1
  {
    if path == [] {
      if p.remaining > 0 {
        AppendKeepsBounds(p.remaining, p.children, m);
        AppendKeepsBounds(p.remaining, p.strays, m);
      }
    } else {
      match path[0]
      case Child(i) =>
        if i < |p.children| {
          HandleInKeepsBounds(p.remaining, p.children, i, path[1..], r, m);
        }
      case Stray(i) =>
        if i < |p.strays| {
          HandleInKeepsBounds(p.remaining, p.strays, i, path[1..], r, m);
        }
    }
  }

  lemma {:induction false} HandleInKeepsBounds(remaining: nat, ps: seq<Proxy>, i: nat, path: seq<Link>,
                                               r: Request, m: nat)
    requires i < |ps| && AllBelow(remaining, ps, m) && r.config.maxChildren == m
    ensures AllBelow(remaining, HandleIn(ps, i, path, r), m)
    decreases |path|, 2
  {
    HandleKeepsBounds(ps[i], path, r, m);
    var qs := HandleIn(ps, i, path, r);
    assert forall j :: 0 <= j < |qs| && j != i ==> qs[j] == ps[j];
  }

  lemma AppendKeepsBounds(remaining: nat, ps: seq<Proxy>, m: nat)
    requires remaining > 0 && AllBelow(remaining, ps, m)
    ensures AllBelow(remaining, ps + [NewProxy(remaining - 1)], m)
  {
    var qs := ps + [NewProxy(remaining - 1)];
    assert Bounded(NewProxy(remaining - 1), m);
    forall j | 0 <= j < |qs| ensures qs[j].remaining == remaining - 1 && Bounded(qs[j], m) {
      assert j < |ps| ==> qs[j] == ps[j];
    }
  }

  /** From a root started with depth `d`, whatever is requested wherever in the tree, in any order. */
  lemma {:induction false} TreesStayBounded(d: nat, m: nat, requests: seq<Request>)
    requires forall r :: r in requests ==> r.config.maxChildren == m
    ensures Bounded(Grow(NewProxy(d), requests), m) && Grow(NewProxy(d), requests).remaining == d
    decreases |requests|
  {
    if requests != [] {
      var last, before := requests[|requests| - 1], requests[..|requests| - 1];
      assert last in requests;
      TreesStayBounded(d, m, before);
      HandleKeepsBounds(Grow(NewProxy(d), before), last.path, last, m);
    }
  }

  // ----- how large it can get --------------------------------------------------------------------

  /** Levels of processes below this one, counted or not. */
  function Height(p: Proxy): nat
    decreases p, 1
  {
    Max(HeightOf(p.children), HeightOf(p.strays))
  }

  function HeightOf(ps: seq<Proxy>): nat
    decreases ps, 0
  {
    if ps == [] then 0 else Max(1 + Height(ps[0]), HeightOf(ps[1..]))
  }

  /** Counted proxies below this one, each reached through counted ones. */
  function Descendants(p: Proxy): nat
    decreases p, 1
  {
    DescendantsOf(p.children)
  }

  function DescendantsOf(ps: seq<Proxy>): nat
    decreases ps, 0
  {
    if ps == [] then 0 else 1 + Descendants(ps[0]) + DescendantsOf(ps[1..])
  }

  /** m + m^2 + ... + m^d */
  function PowerSum(m: nat, d: nat): nat {
    if d == 0 then 0 else PowerSum(m, d - 1) + Power(m, d)
  }

  lemma {:induction false} PowerSumByLevel(m: nat, d: nat)
    requires d > 0
    ensures PowerSum(m, d) == m * (1 + PowerSum(m, d - 1))
  {
    if d > 1 {
      PowerSumByLevel(m, d - 1);
      assert m * (1 + PowerSum(m, d - 1)) == m * (1 + PowerSum(m, d - 2)) + m * Power(m, d - 1) by {
        Distribute(m, 1 + PowerSum(m, d - 2), Power(m, d - 1));
      }
    } else {
      assert Power(m, 1) == m * Power(m, 0);
    }
  }

  lemma Distribute(a: nat, b: nat, c: nat)
    ensures a * (b + c) == a * b + a * c
  {
  }

  lemma {:induction false} BoundedIsSmall(p: Proxy, m: nat)
    requires Bounded(p, m)
    ensures Height(p) <= p.remaining
    ensures Descendants(p) <= PowerSum(m, p.remaining)
    decreases p, 1
  {
    if p.strays != [] {
      assert p.strays[0].remaining == p.remaining - 1;
      BoundedAreSmall(p.strays, m, p.remaining - 1);
    }
    if p.children != [] {
      assert p.children[0].remaining == p.remaining - 1;
      BoundedAreSmall(p.children, m, p.remaining - 1);
      PowerSumByLevel(m, p.remaining);
      Multiply(|p.children|, m, 1 + PowerSum(m, p.remaining - 1));
    }
  }

  lemma Multiply(a: nat, b: nat, c: nat)
    requires a <= b
    ensures a * c <= b * c
  {
    Distribute(c, a, b - a);
  }

  lemma {:induction false} BoundedAreSmall(ps: seq<Proxy>, m: nat, d: nat)
    requires forall i :: 0 <= i < |ps| ==> ps[i].remaining == d && Bounded(ps[i], m)
    ensures HeightOf(ps) <= d + 1
    ensures DescendantsOf(ps) <= |ps| * (1 + PowerSum(m, d))
    decreases ps, 0
  {
    if ps != [] {
      BoundedIsSmall(ps[0], m);
      BoundedAreSmall(ps[1..], m, d);
      var size := 1 + PowerSum(m, d);
      assert |ps| * size == size + |ps[1..]| * size by {
        Distribute(size, 1, |ps[1..]|);
      }
    }
  }

  /** In every reachable tree no process is more than `d` levels below the root, and at most
      m + m^2 + ... + m^d proxies are counted. */
  lemma TreeIsSmall(d: nat, m: nat, requests: seq<Request>)
    requires forall r :: r in requests ==> r.config.maxChildren == m
    ensures var tree := Grow(NewProxy(d), requests);
      Height(tree) <= d && |tree.children| <= m && Descendants(tree) <= PowerSum(m, d)
  {
    TreesStayBounded(d, m, requests);
    BoundedIsSmall(Grow(NewProxy(d), requests), m);
  }

  // ----- processes that never report ready ------------------------------------------------------

  /** Every process started below this one. */
  function Started(p: Proxy): nat
    decreases p, 1
  {
    StartedIn(p.children) + StartedIn(p.strays)
  }

  function StartedIn(ps: seq<Proxy>): nat
    decreases ps, 0
  {
    if ps == [] then 0 else 1 + Started(ps[0]) + StartedIn(ps[1..])
  }

  ghost predicate NoStrays(p: Proxy)
    decreases p
  {
    p.strays == [] && forall i :: 0 <= i < |p.children| ==> NoStrays(p.children[i])
  }

  /** All started processes are counted exactly if none failed to report ready. */
  lemma {:induction false} AllCountedExactly(p: Proxy)
    ensures Started(p) >= Descendants(p)
    ensures Started(p) == Descendants(p) <==> NoStrays(p)
    decreases p, 1
  {
    AllCountedIn(p.children);
  }

  lemma {:induction false} AllCountedIn(ps: seq<Proxy>)
    ensures StartedIn(ps) >= DescendantsOf(ps)
    ensures StartedIn(ps) == DescendantsOf(ps) <==> forall i :: 0 <= i < |ps| ==> NoStrays(ps[i])
    decreases ps, 0
  {
    if ps != [] {
      AllCountedExactly(ps[0]);
      AllCountedIn(ps[1..]);
      assert forall i :: 0 < i < |ps| ==> ps[i] == ps[1..][i - 1];
    }
  }

  lemma {:induction false} ReadyLeavesNoStrays(p: Proxy, path: seq<Link>, r: Request)
    requires NoStrays(p) && !r.outcome.NeverReady?
    ensures NoStrays(Handle(p, path, r))
    decreases |path|
  {
    var q := Handle(p, path, r);
    if path != [] && path[0].Child? && path[0].index < |p.children| {
      ReadyLeavesNoStrays(p.children[path[0].index], path[1..], r);
      assert forall j :: 0 <= j < |q.children| && j != path[0].index ==> q.children[j] == p.children[j];
    } else if path == [] {
      assert forall j :: 0 <= j < |p.children| ==> q.children[j] == p.children[j];
    }
  }

  lemma {:induction false} NeverStray(d: nat, requests: seq<Request>)
    requires forall r :: r in requests ==> !r.outcome.NeverReady?
    ensures NoStrays(Grow(NewProxy(d), requests))
    decreases |requests|
  {
    if requests != [] {
      var last, before := requests[|requests| - 1], requests[..|requests| - 1];
      assert last in requests;
      NeverStray(d, before);
      ReadyLeavesNoStrays(Grow(NewProxy(d), before), last.path, last);
    }
  }

  /** If every process that is started reports ready, the bound holds of all started processes. */
  lemma ReadyTreeIsSmall(d: nat, m: nat, requests: seq<Request>)
    requires forall r :: r in requests ==> r.config.maxChildren == m && !r.outcome.NeverReady?
    ensures Started(Grow(NewProxy(d), requests)) <= PowerSum(m, d)
  {
    TreeIsSmall(d, m, requests);
    NeverStray(d, requests);
    AllCountedExactly(Grow(NewProxy(d), requests));
  }

  const ONE_CHILD := Config(true, 1, [Rule(None, [], [], StdioTemplate, [])], None)

  function Unready(): Request {
    Request([], ONE_CHILD, Parent(Stdio, [], None), Some(Args("launch", {})), NeverReady)
  }

  /** Otherwise it need not: with a limit of one child, any number of processes can be started that
      never report ready. */
  lemma {:induction false} UnreadyExample(k: nat)
    ensures var tree := Grow(NewProxy(1), seq(k, _ => Unready()));
      tree.children == [] && |tree.strays| == k && tree.remaining == 1
    decreases k
  {
    if k > 0 {
      var requests := seq(k, _ => Unready());
      assert requests[..k - 1] == seq(k - 1, _ => Unready());
      UnreadyExample(k - 1);
      assert Eligible(ONE_CHILD.rules[0], Args("launch", {}), Parent(Stdio, [], None));
    }
  }
}
