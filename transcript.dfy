/** The transcript `summarize_conversation` sends to the model: each
    context window becomes a group of lines, and groups are appended in
    order while the estimated token total stays within the ceiling. The
    estimate `words * 4.7 + 100` is kept exactly, in tenths of a token. */
module Transcript {

  import opened Common
  import opened Text
  import opened Budget

  /** The ceiling of 124000 tokens, in tenths. */
  const CeilingTenths: nat := 1240000

  /** One transcript line; the date text of a timestamp is a parameter. */
  function Line(m: Message, date: int -> string): string {
    "User: " + m.name + ", Date: " + date(m.timestamp) + ", Contents: " + m.contents
  }

  /** The lines of one window joined by newlines. */
  function GroupText(group: seq<Message>, date: int -> string): string {
    JoinWith(seq(|group|, k requires 0 <= k < |group| => Line(group[k], date)), "\n")
  }

  /** `len(text.split()) * 4.7 + 100`, in tenths of a token. */
  function EstimateTenths(text: string): (t: nat)
    ensures t >= 1000
  {
    WordCount(text) * 47 + 1000
  }

  function Costs(groups: seq<seq<Message>>, date: int -> string): (costs: seq<nat>)
    ensures |costs| == |groups|
    ensures forall k :: 0 <= k < |groups| ==> costs[k] == EstimateTenths(GroupText(groups[k], date))
  {
    seq(|groups|, k requires 0 <= k < |groups| => EstimateTenths(GroupText(groups[k], date)))
  }

  /** The texts of the included groups, each followed by a blank line. */
  function Conversations(groups: seq<seq<Message>>, date: int -> string): string {
    if groups == [] then []
    else Conversations(groups[..|groups| - 1], date) + GroupText(groups[|groups| - 1], date) + "\n\n"
  }

  lemma ConversationsSnoc(groups: seq<seq<Message>>, date: int -> string, i: nat)
    requires i < |groups|
    ensures Conversations(groups[..i + 1], date) == Conversations(groups[..i], date) + GroupText(groups[i], date) + "\n\n"
  {
    assert groups[..i + 1][..i] == groups[..i];
  }

  /** The accumulation loop of `summarize_conversation`. The included
      groups are a prefix of the windows, their estimates add up to the
      returned total, which stays within the ceiling, and the loop stops
      only when the next group would overflow it. */
  method Accumulate(groups: seq<seq<Message>>, date: int -> string)
    returns (conversations: string, totalTenths: nat, ghost included: nat)
    ensures totalTenths <= CeilingTenths
    ensures |conversations| <= |Conversations(groups, date)| && conversations == Conversations(groups, date)[..|conversations|]
    ensures included <= |groups|
    ensures conversations == Conversations(groups[..included], date)
    ensures totalTenths == Sum(Costs(groups, date)[..included]) <= CeilingTenths
    ensures forall m :: included < m <= |groups| ==> Sum(Costs(groups, date)[..m]) > CeilingTenths
  {
    ghost var costs := Costs(groups, date);
    conversations := [];
    totalTenths := 0;
    var i := 0;
    while i < |groups|
      invariant i <= |groups|
      invariant conversations == Conversations(groups[..i], date)
      invariant totalTenths == Sum(costs[..i]) <= CeilingTenths
    {
      var groupMessages := GroupText(groups[i], date);
      var estimated := EstimateTenths(groupMessages);
      if totalTenths + estimated > CeilingTenths {
        GreedyStopIsLongest(costs, i, CeilingTenths);
        break;
      }
      SumSnoc(costs, i);
      ConversationsSnoc(groups, date, i);
      conversations := conversations + groupMessages + "\n\n";
      totalTenths := totalTenths + estimated;
      i := i + 1;
    }
    included := i;
    ConversationsPrefix(groups, date, included);
  }

  /** Each group costs at least 100 tokens, so no more than 1240 groups
      are ever included. */
  lemma IncludedBound(groups: seq<seq<Message>>, date: int -> string, included: nat)
    requires included <= |groups|
    requires Sum(Costs(groups, date)[..included]) <= CeilingTenths
    ensures included <= 1240
  {
    SumAtLeast(Costs(groups, date)[..included], 1000);
  }

  /** The transcript of a prefix is a prefix of the transcript. */
  lemma {:induction false} ConversationsPrefix(groups: seq<seq<Message>>, date: int -> string, n: nat)
    requires n <= |groups|
    ensures var whole := Conversations(groups, date);
            var part := Conversations(groups[..n], date);
            |part| <= |whole| && whole[..|part|] == part
    decreases |groups|
  {
    if n < |groups| {
      var init := groups[..|groups| - 1];
      ConversationsPrefix(init, date, n);
      assert init[..n] == groups[..n];
    } else {
      assert groups[..n] == groups;
    }
  }
}
