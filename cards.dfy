/**
 * The credit-card record as the list screen sees it, and the `findIndex`
 * lookup the save handlers use to locate a saved card in a refetched list.
 */
module Cards {
  import opened Opt

  /** One display-only action descriptor attached to a card (`op` is 'set'
      or 'link-schedule' in practice; any other value renders nothing). */
  datatype Action = Action(field: string, op: string)

  datatype Card = Card(
    id: string,
    accountId: Option<string>,
    processorName: string,
    statementClosingDay: int,
    paymentDueDate: int,
    creditLimit: int,
    stage: Option<string>,
    actions: seq<Action>)

  /** `cards.findIndex(c => c.id === id)`: the first index whose card has that
      id, or -1 when no card has it. */
  function IndexOfId(cards: seq<Card>, id: string): (r: int)
    ensures -1 <= r < |cards|
    ensures r == -1 <==> forall j :: 0 <= j < |cards| ==> cards[j].id != id
    ensures 0 <= r ==> cards[r].id == id
    ensures 0 <= r ==> forall j :: 0 <= j < r ==> cards[j].id != id
    decreases |cards|
  {
    if cards == [] then -1
    else if cards[0].id == id then 0
    else
      var k := IndexOfId(cards[1..], id);
      if k == -1 then -1 else k + 1
  }
}
