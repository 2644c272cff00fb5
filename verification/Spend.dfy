/** Attribution of the organization's usage costs to boards and agents, over exact numbers. */
module Spend {
  import opened Wrappers
  import opened Sums

  type AgentId = nat
  type GatewayId = nat
  type BoardId = nat

  datatype Usage = Usage(agent: Option<AgentId>, gateway: GatewayId, cost: real)

  datatype Board = Board(id: BoardId, gateway: Option<GatewayId>, budget: Option<real>)

  datatype Agent = Agent(id: AgentId, board: Option<BoardId>)

  datatype BoardStatus = BoardStatus(id: BoardId, budget: real, spend: real)

  // ----- what each board should be charged -----

  function GatewayUsers(boards: seq<Board>, g: GatewayId): nat {
    if boards == [] then 0
    else GatewayUsers(boards[..|boards| - 1], g) + if boards[|boards| - 1].gateway == Some(g) then 1 else 0
  }

  predicate WorksOn(agents: seq<Agent>, a: AgentId, board: BoardId) {
    exists row <- agents :: row.id == a && row.board == Some(board)
  }

  /** A cost with an agent belongs to the agent's board; one without, to the only board of its gateway. */
  predicate Charges(boards: seq<Board>, agents: seq<Agent>, u: Usage, b: Board) {
    if u.agent.Some? then WorksOn(agents, u.agent.value, b.id)
    else b.gateway == Some(u.gateway) && GatewayUsers(boards, u.gateway) == 1
  }

  /** The costs that belong to a board. */
  function Due(boards: seq<Board>, agents: seq<Agent>, usage: seq<Usage>, b: Board): real {
    if usage == [] then 0.0
    else
      var last := usage[|usage| - 1];
      Due(boards, agents, usage[..|usage| - 1], b) + if Charges(boards, agents, last, b) then last.cost else 0.0
  }

  function Spent(usage: seq<Usage>): real {
    if usage == [] then 0.0 else Spent(usage[..|usage| - 1]) + usage[|usage| - 1].cost
  }

  // ----- what the loops add up -----

  function AgentCost(usage: seq<Usage>, a: AgentId): real {
    if usage == [] then 0.0
    else
      var last := usage[|usage| - 1];
      AgentCost(usage[..|usage| - 1], a) + if last.agent == Some(a) then last.cost else 0.0
  }

  function UnattributedCost(usage: seq<Usage>, g: GatewayId): real {
    if usage == [] then 0.0
    else
      var last := usage[|usage| - 1];
      UnattributedCost(usage[..|usage| - 1], g) + if last.agent.None? && last.gateway == g then last.cost else 0.0
  }

  /** The agents of a board, in the order of their table. */
  function AgentsOn(agents: seq<Agent>, board: BoardId): (ids: seq<AgentId>)
    ensures forall a :: a in ids <==> WorksOn(agents, a, board)
  {
    if agents == [] then []
    else
      var front, last := agents[..|agents| - 1], agents[|agents| - 1];
      AgentsOnStep(agents, board);
      if last.board == Some(board) then AgentsOn(front, board) + [last.id] else AgentsOn(front, board)
  }

  lemma AgentsOnStep(agents: seq<Agent>, board: BoardId)
    requires agents != []
    ensures forall row :: row in agents <==> row in agents[..|agents| - 1] || row == agents[|agents| - 1]
  {
  }

  function SumAgents(usage: seq<Usage>, ids: seq<AgentId>): real {
    if ids == [] then 0.0 else SumAgents(usage, ids[..|ids| - 1]) + AgentCost(usage, ids[|ids| - 1])
  }

  method BudgetStatus(usage: seq<Usage>, boards: seq<Board>, agents: seq<Agent>)
    returns (orgSpend: real, statuses: seq<BoardStatus>)
    requires DistinctAgents(agents)
    ensures orgSpend == Spent(usage)
    ensures statuses == Statuses(boards, agents, usage, boards)
  {
    hide Charges, Due, AgentsOn, WorksOn;
    orgSpend := 0.0;
    var agentCosts: map<AgentId, real> := map[];
    var gatewayCosts: map<GatewayId, real> := map[];
    for k := 0 to |usage|
      invariant orgSpend == Spent(usage[..k])
      invariant forall a :: ValueOf(agentCosts, a) == AgentCost(usage[..k], a)
      invariant forall g :: ValueOf(gatewayCosts, g) == UnattributedCost(usage[..k], g)
    {
      assert usage[..k + 1][..k] == usage[..k];
      var item := usage[k];
      orgSpend := orgSpend + item.cost;
      if item.agent.Some? {
        agentCosts := agentCosts[item.agent.value := ValueOf(agentCosts, item.agent.value) + item.cost];
      } else {
        gatewayCosts := gatewayCosts[item.gateway := ValueOf(gatewayCosts, item.gateway) + item.cost];
      }
    }
    assert usage[..|usage|] == usage;
    var gatewayCounts := CountGateways(boards);
    statuses := [];
    for k := 0 to |boards|
      invariant statuses == Statuses(boards, agents, usage, boards[..k])
    {
      assert boards[..k + 1][..k] == boards[..k];
      var board := boards[k];
      if board.budget.None? { continue; }
      var spend := AddUp(usage, agentCosts, AgentsOn(agents, board.id));
      if board.gateway.Some? && board.gateway.value in gatewayCounts && gatewayCounts[board.gateway.value] == 1 {
        spend := spend + ValueOf(gatewayCosts, board.gateway.value);
      }
      SpendIsDue(boards, agents, usage, board);
      statuses := statuses + [BoardStatus(board.id, board.budget.value, spend)];
    }
    assert boards[..|boards|] == boards;
  }

  method CountGateways(boards: seq<Board>) returns (counts: map<GatewayId, nat>)
    ensures forall g :: (if g in counts then counts[g] else 0) == GatewayUsers(boards, g)
  {
    counts := map[];
    for k := 0 to |boards|
      invariant forall g :: (if g in counts then counts[g] else 0) == GatewayUsers(boards[..k], g)
    {
      assert boards[..k + 1][..k] == boards[..k];
      if boards[k].gateway.Some? {
        var g := boards[k].gateway.value;
        counts := counts[g := (if g in counts then counts[g] else 0) + 1];
      }
    }
    assert boards[..|boards|] == boards;
  }

  method AddUp(usage: seq<Usage>, costs: map<AgentId, real>, ids: seq<AgentId>) returns (sum: real)
    requires forall a :: ValueOf(costs, a) == AgentCost(usage, a)
    ensures sum == SumAgents(usage, ids)
  {
    sum := 0.0;
    for k := 0 to |ids|
      invariant sum == SumAgents(usage, ids[..k])
    {
      assert ids[..k + 1][..k] == ids[..k];
      sum := sum + ValueOf(costs, ids[k]);
    }
    assert ids[..|ids|] == ids;
  }

  /** The status of each listed board that has a budget: exactly the costs that belong to it. */
  function Statuses(boards: seq<Board>, agents: seq<Agent>, usage: seq<Usage>, listed: seq<Board>): seq<BoardStatus> {
    if listed == [] then []
    else
      var before, b := Statuses(boards, agents, usage, listed[..|listed| - 1]), listed[|listed| - 1];
      if b.budget.None? then before else before + [BoardStatus(b.id, b.budget.value, Due(boards, agents, usage, b))]
  }

  /** The boards that have a budget, in order. */
  function Budgeted(listed: seq<Board>): (r: seq<Board>)
    ensures forall b :: b in r <==> b in listed && b.budget.Some?
  {
    if listed == [] then []
    else
      var before, b := Budgeted(listed[..|listed| - 1]), listed[|listed| - 1];
      if b.budget.Some? then before + [b] else before
  }

  /** Every board with a budget is reported, in order, with its budget and the costs that belong to it. */
  lemma {:induction false} ReportedAsDue(boards: seq<Board>, agents: seq<Agent>, usage: seq<Usage>, listed: seq<Board>)
    ensures var statuses, budgeted := Statuses(boards, agents, usage, listed), Budgeted(listed);
      |statuses| == |budgeted| && forall i :: 0 <= i < |budgeted| ==>
        budgeted[i].budget.Some?
        && statuses[i].id == budgeted[i].id && statuses[i].budget == budgeted[i].budget.value
        && statuses[i].spend == Due(boards, agents, usage, budgeted[i])
  {
    hide Due;
    if listed != [] { ReportedAsDue(boards, agents, usage, listed[..|listed| - 1]); }
  }

  // ----- the sums charge each board its own costs -----

  predicate DistinctAgents(agents: seq<Agent>) {
    forall i, j :: 0 <= i < j < |agents| ==> agents[i].id != agents[j].id
  }

  lemma {:induction false} AgentsOnDistinct(agents: seq<Agent>, board: BoardId)
    requires DistinctAgents(agents)
    ensures NoRepeats(AgentsOn(agents, board))
  {
    if agents != [] {
      var front, last := agents[..|agents| - 1], agents[|agents| - 1];
      AgentsOnDistinct(front, board);
      assert !WorksOn(front, last.id, board) && last.id !in AgentsOn(front, board);
    }
  }

  lemma {:induction false} SumAgentsStep(usage: seq<Usage>, u: Usage, ids: seq<AgentId>)
    requires NoRepeats(ids)
    ensures SumAgents(usage + [u], ids)
         == SumAgents(usage, ids) + if u.agent.Some? && u.agent.value in ids then u.cost else 0.0
  {
    assert (usage + [u])[..|usage|] == usage;
    if ids != [] {
      var front, a := ids[..|ids| - 1], ids[|ids| - 1];
      SumAgentsStep(usage, u, front);
      assert a !in front;
      assert u.agent.Some? ==> (u.agent.value in ids <==> u.agent.value in front || u.agent.value == a);
    }
  }

  /** What the loops compute for a board is what belongs to it. */
  lemma {:induction false} SpendIsDue(boards: seq<Board>, agents: seq<Agent>, usage: seq<Usage>, b: Board)
    requires DistinctAgents(agents)
    ensures Due(boards, agents, usage, b) == SumAgents(usage, AgentsOn(agents, b.id))
      + if b.gateway.Some? && GatewayUsers(boards, b.gateway.value) == 1
        then UnattributedCost(usage, b.gateway.value) else 0.0
  {
    var ids := AgentsOn(agents, b.id);
    AgentsOnDistinct(agents, b.id);
    if usage == [] {
      NothingSpent(ids);
    } else {
      var front, last := usage[..|usage| - 1], usage[|usage| - 1];
      SpendIsDue(boards, agents, front, b);
      SumAgentsStep(front, last, ids);
      assert front + [last] == usage;
      hide AgentsOn, WorksOn;
    }
  }

  lemma {:induction false} NothingSpent(ids: seq<AgentId>)
    ensures SumAgents([], ids) == 0.0
  {
    if ids != [] { NothingSpent(ids[..|ids| - 1]); }
  }

  // ----- no cost is counted twice -----

  predicate DistinctBoards(boards: seq<Board>) {
    forall i, j :: 0 <= i < j < |boards| ==> boards[i].id != boards[j].id
  }

  /** A gateway with one user has that user only. */
  lemma {:induction false} OneUser(boards: seq<Board>, g: GatewayId, i: nat, j: nat)
    requires i < j < |boards| && boards[i].gateway == boards[j].gateway == Some(g)
    ensures GatewayUsers(boards, g) >= 2
    decreases |boards|
  {
    var front := boards[..|boards| - 1];
    if j < |boards| - 1 { OneUser(front, g, i, j); } else { SomeUser(front, g, i); }
  }

  lemma {:induction false} SomeUser(boards: seq<Board>, g: GatewayId, i: nat)
    requires i < |boards| && boards[i].gateway == Some(g)
    ensures GatewayUsers(boards, g) >= 1
    decreases |boards|
  {
    if i < |boards| - 1 { SomeUser(boards[..|boards| - 1], g, i); }
  }

  /** A cost belongs to at most one board. */
  lemma ChargedOnce(boards: seq<Board>, agents: seq<Agent>, u: Usage, i: nat, j: nat)
    requires DistinctAgents(agents) && DistinctBoards(boards) && i <= j < |boards|
    requires Charges(boards, agents, u, boards[i]) && Charges(boards, agents, u, boards[j])
    ensures i == j
  {
    if u.agent.None? && i < j { OneUser(boards, u.gateway, i, j); }
  }

  /** What the listed boards are charged together. */
  function TotalDue(boards: seq<Board>, agents: seq<Agent>, usage: seq<Usage>, listed: seq<Board>): real {
    if listed == [] then 0.0
    else TotalDue(boards, agents, usage, listed[..|listed| - 1]) + Due(boards, agents, usage, listed[|listed| - 1])
  }

  /** One cost, over the listed boards: counted once if one of them is charged, and not at all otherwise. */
  lemma {:induction false} OneMoreCost(boards: seq<Board>, agents: seq<Agent>, usage: seq<Usage>, u: Usage, n: nat)
    requires DistinctAgents(agents) && DistinctBoards(boards) && n <= |boards|
    ensures TotalDue(boards, agents, usage + [u], boards[..n]) == TotalDue(boards, agents, usage, boards[..n])
      + if exists i :: 0 <= i < n && Charges(boards, agents, u, boards[i]) then u.cost else 0.0
  {
    hide Charges;
    if n > 0 {
      OneMoreCost(boards, agents, usage, u, n - 1);
      assert boards[..n][..n - 1] == boards[..n - 1];
      assert (usage + [u])[..|usage|] == usage;
      if Charges(boards, agents, u, boards[n - 1]) {
        forall i | 0 <= i < n - 1 ensures !Charges(boards, agents, u, boards[i]) {
          if Charges(boards, agents, u, boards[i]) { ChargedOnce(boards, agents, u, i, n - 1); }
        }
      }
    }
  }

  /** The costs that belong to some board. */
  function Attributed(boards: seq<Board>, agents: seq<Agent>, usage: seq<Usage>): real {
    if usage == [] then 0.0
    else
      var last := usage[|usage| - 1];
      Attributed(boards, agents, usage[..|usage| - 1])
        + if exists i :: 0 <= i < |boards| && Charges(boards, agents, last, boards[i]) then last.cost else 0.0
  }

  /** All boards together are charged exactly the costs that belong to one of them. */
  lemma {:induction false} EveryCostOnce(boards: seq<Board>, agents: seq<Agent>, usage: seq<Usage>)
    requires DistinctAgents(agents) && DistinctBoards(boards)
    ensures TotalDue(boards, agents, usage, boards) == Attributed(boards, agents, usage)
  {
    hide Charges;
    assert boards[..|boards|] == boards;
    if usage == [] {
      NothingDue(boards, agents, |boards|);
    } else {
      var front, last := usage[..|usage| - 1], usage[|usage| - 1];
      EveryCostOnce(boards, agents, front);
      OneMoreCost(boards, agents, front, last, |boards|);
      assert front + [last] == usage;
    }
  }

  lemma {:induction false} NothingDue(boards: seq<Board>, agents: seq<Agent>, n: nat)
    requires n <= |boards|
    ensures TotalDue(boards, agents, [], boards[..n]) == 0.0
  {
    if n > 0 {
      NothingDue(boards, agents, n - 1);
      assert boards[..n][..n - 1] == boards[..n - 1];
    }
  }

  predicate NonNegative(usage: seq<Usage>) {
    forall u <- usage :: u.cost >= 0.0
  }

  lemma {:induction false} AttributedIsPart(boards: seq<Board>, agents: seq<Agent>, usage: seq<Usage>)
    requires NonNegative(usage)
    ensures Attributed(boards, agents, usage) <= Spent(usage)
  {
    hide Charges;
    if usage != [] { AttributedIsPart(boards, agents, usage[..|usage| - 1]); }
  }

  lemma {:induction false} DueIsNonNegative(boards: seq<Board>, agents: seq<Agent>, usage: seq<Usage>, b: Board)
    requires NonNegative(usage)
    ensures Due(boards, agents, usage, b) >= 0.0
  {
    hide Charges;
    if usage != [] { DueIsNonNegative(boards, agents, usage[..|usage| - 1], b); }
  }

  function Reported(statuses: seq<BoardStatus>): real {
    if statuses == [] then 0.0 else Reported(statuses[..|statuses| - 1]) + statuses[|statuses| - 1].spend
  }

  lemma {:induction false} ReportedIsPart(boards: seq<Board>, agents: seq<Agent>, usage: seq<Usage>, listed: seq<Board>)
    requires NonNegative(usage)
    ensures Reported(Statuses(boards, agents, usage, listed)) <= TotalDue(boards, agents, usage, listed)
  {
    hide Due;
    if listed != [] {
      var front, b := listed[..|listed| - 1], listed[|listed| - 1];
      ReportedIsPart(boards, agents, usage, front);
      DueIsNonNegative(boards, agents, usage, b);
      var before := Statuses(boards, agents, usage, front);
      if b.budget.Some? {
        assert Statuses(boards, agents, usage, listed)[..|before|] == before;
      }
    }
  }

  /** The spends reported for the boards with a budget never exceed the organization's spend. */
  lemma BoardsSpendAtMostAll(boards: seq<Board>, agents: seq<Agent>, usage: seq<Usage>)
    requires DistinctAgents(agents) && DistinctBoards(boards) && NonNegative(usage)
    ensures Reported(Statuses(boards, agents, usage, boards)) <= Spent(usage)
  {
    hide *;
    ReportedIsPart(boards, agents, usage, boards);
    EveryCostOnce(boards, agents, usage);
    AttributedIsPart(boards, agents, usage);
  }
}
