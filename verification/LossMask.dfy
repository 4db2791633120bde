/** The loss mask: which tokens of a padded training batch were generated by the assistant. */
module LossMask {
  import opened Options
  import opened Sequences
  import opened Messages

  const ROLE := "role"
  const TOKENS := "token_ids"
  const MASK := "token_loss_mask"
  const LOGPROBS := "generation_logprobs"

  /** A message has a role and a row of tokens. */
  predicate IsTurn(m: Message) {
    ROLE in m && m[ROLE].Other? && TOKENS in m && m[TOKENS].Tensor?
  }

  predicate AreTurns(log: seq<Message>) {
    forall i :: 0 <= i < |log| ==> IsTurn(log[i])
  }

  predicate FromAssistant(m: Message)
    requires IsTurn(m)
  {
    m[ROLE].text == "assistant"
  }

  function Turn(m: Message): seq<int>
    requires IsTurn(m)
  {
    m[TOKENS].data
  }

  function Fill(n: nat, x: int): (r: seq<int>) {
    seq(n, _ => x)
  }

  function TurnMask(m: Message): (r: seq<int>)
    requires IsTurn(m)
  {
    Fill(|Turn(m)|, if FromAssistant(m) then 1 else 0)
  }

  function WithMask(m: Message): (r: Message)
    requires IsTurn(m)
  {
    var masked := m[MASK := Tensor(TurnMask(m))];
    if LOGPROBS in masked then masked else masked[LOGPROBS := Tensor(Fill(|Turn(m)|, 0))]
  }

  /** A message is given a mask that tells its author for every token, and zero log-probabilities if it has none;
      everything else in it stays. */
  ghost predicate IsMarked(m: Message, r: Message)
    requires IsTurn(m)
  {
    && r.Keys == m.Keys + {MASK, LOGPROBS}
    && (forall k :: k in m && k != MASK ==> r[k] == m[k])
    && IsConstantRow(r[MASK], |Turn(m)|, if m[ROLE].text == "assistant" then 1 else 0)
    && (LOGPROBS !in m ==> IsConstantRow(r[LOGPROBS], |Turn(m)|, 0))
  }

  ghost predicate AreMarked(log: seq<Message>, masked: seq<Message>)
    requires AreTurns(log)
  {
    |masked| == |log| && forall j :: 0 <= j < |log| ==> IsMarked(log[j], masked[j])
  }

  ghost predicate IsConstantRow(v: Value, n: nat, x: int) {
    v.Tensor? && |v.data| == n && forall t :: 0 <= t < n ==> v.data[t] == x
  }

  lemma WithMaskMarks(m: Message)
    requires IsTurn(m)
    ensures IsMarked(m, WithMask(m))
  {
    assert MASK != LOGPROBS;
  }

  function AllMasked(log: seq<Message>): (r: seq<Message>)
    requires AreTurns(log)
  {
    seq(|log|, i requires 0 <= i < |log| => WithMask(log[i]))
  }

  /** Goes through the messages of every conversation and sets their masks. */
  method AddLossMask(logs: seq<seq<Message>>) returns (masked: seq<seq<Message>>)
    requires forall i :: 0 <= i < |logs| ==> AreTurns(logs[i])
    ensures |masked| == |logs| && forall i :: 0 <= i < |logs| ==> masked[i] == AllMasked(logs[i])
    ensures forall i :: 0 <= i < |logs| ==> AreMarked(logs[i], masked[i])
  {
    masked := logs;
    for i := 0 to |logs|
      invariant |masked| == |logs|
      invariant forall k :: 0 <= k < i ==> masked[k] == AllMasked(logs[k])
      invariant forall k :: i <= k < |logs| ==> masked[k] == logs[k]
    {
      var log := logs[i];
      for j := 0 to |log|
        invariant |log| == |logs[i]|
        invariant forall k :: 0 <= k < j ==> log[k] == WithMask(logs[i][k])
        invariant forall k :: j <= k < |log| ==> log[k] == logs[i][k]
      {
        var message := log[j];
        var mask := if message[ROLE].text == "assistant" then 1 else 0;
        message := message[MASK := Tensor(Fill(|Turn(message)|, mask))];
        if LOGPROBS !in message {
          message := message[LOGPROBS := Tensor(Fill(|Turn(message)|, 0))];
        }
        log := log[j := message];
      }
      masked := masked[i := log];
    }
    forall i | 0 <= i < |logs| ensures AreMarked(logs[i], masked[i]) {
      forall j | 0 <= j < |logs[i]| ensures IsMarked(logs[i][j], masked[i][j]) {
        WithMaskMarks(logs[i][j]);
      }
    }
  }

  // ----- a conversation's tokens and mask -----

  function Tokens(log: seq<Message>): seq<int>
    requires AreTurns(log)
  {
    if log == [] then [] else Tokens(log[..|log| - 1]) + Turn(log[|log| - 1])
  }

  function Mask(log: seq<Message>): seq<int>
    requires AreTurns(log)
  {
    if log == [] then [] else Mask(log[..|log| - 1]) + TurnMask(log[|log| - 1])
  }

  lemma RowsSnoc(values: seq<Value>, v: Value)
    requires AllTensors(values) && v.Tensor?
    ensures AllTensors(values + [v]) && Flat(Rows(values + [v])) == Flat(Rows(values)) + v.data
  {
    assert Rows(values + [v]) == Rows(values) + [v.data];
    FlatSnoc(Rows(values), v.data);
  }

  /** The tokens and masks of the messages, joined, are the conversation's. */
  lemma {:induction false} JoinedColumns(log: seq<Message>)
    requires AreTurns(log)
    ensures |Column(AllMasked(log), TOKENS)| == |Column(AllMasked(log), MASK)| == |log|
    ensures AllTensors(Column(AllMasked(log), TOKENS)) && AllTensors(Column(AllMasked(log), MASK))
    ensures Flat(Rows(Column(AllMasked(log), TOKENS))) == Tokens(log)
    ensures Flat(Rows(Column(AllMasked(log), MASK))) == Mask(log)
  {
    var n := |log|;
    if n == 0 {
    } else {
      var init := log[..n - 1];
      JoinedColumns(init);
      assert AllMasked(log)[..n - 1] == AllMasked(init);
      var last := AllMasked(log)[n - 1];
      RowsSnoc(Column(AllMasked(init), TOKENS), last[TOKENS]);
      RowsSnoc(Column(AllMasked(init), MASK), last[MASK]);
    }
  }

  /** Every position of the conversation belongs to one message, and its mask says who wrote that message. */
  lemma {:induction false} MaskMarksAssistant(log: seq<Message>, j: nat, t: nat)
    requires AreTurns(log) && j < |log| && t < |Turn(log[j])|
    ensures |Mask(log)| == |Tokens(log)|
    ensures |Tokens(log[..j])| + t < |Tokens(log)|
    ensures Tokens(log)[|Tokens(log[..j])| + t] == Turn(log[j])[t]
    ensures Mask(log)[|Tokens(log[..j])| + t] == if FromAssistant(log[j]) then 1 else 0
  {
    var n := |log| - 1;
    MaskLength(log);
    MaskLength(log[..n]);
    if j == n {
    } else {
      assert log[..n][..j] == log[..j];
      MaskMarksAssistant(log[..n], j, t);
    }
  }

  lemma {:induction false} MaskLength(log: seq<Message>)
    requires AreTurns(log)
    ensures |Mask(log)| == |Tokens(log)|
  {
    if log == [] {
    } else {
      MaskLength(log[..|log| - 1]);
    }
  }

  /** Every position of the conversation belongs to some message. */
  lemma {:induction false} PositionHasMessage(log: seq<Message>, p: nat) returns (j: nat, t: nat)
    requires AreTurns(log) && p < |Tokens(log)|
    ensures j < |log| && t < |Turn(log[j])| && p == |Tokens(log[..j])| + t
  {
    var n := |log| - 1;
    if p < |Tokens(log[..n])| {
      j, t := PositionHasMessage(log[..n], p);
      assert log[..n][..j] == log[..j];
    } else {
      j, t := n, p - |Tokens(log[..n])|;
    }
  }

  // ----- the training batch -----

  ghost predicate IsTraining(
      logs: seq<seq<Message>>, pads: map<string, int>, divisor: nat, flats: seq<map<string, Joined>>, longest: nat,
      batch: FlatBatch)
    requires divisor > 0
  {
    && logs != []
    && (forall i :: 0 <= i < |logs| ==> AreTurns(logs[i]) && logs[i] != [])
    && Described(MaskedLogs(logs), pads, divisor, flats, longest, batch)
  }

  function MaskedLogs(logs: seq<seq<Message>>): (r: seq<seq<Message>>)
    requires forall i :: 0 <= i < |logs| ==> AreTurns(logs[i])
  {
    seq(|logs|, i requires 0 <= i < |logs| => AllMasked(logs[i]))
  }

  /** Marks the assistant's tokens and flattens the conversations. */
  method PrepareTraining(logs: seq<seq<Message>>, pads: map<string, int>, divisor: nat)
      returns (result: Result<FlatBatch>)
    requires divisor > 0
    requires logs != [] && forall i :: 0 <= i < |logs| ==> AreTurns(logs[i]) && logs[i] != []
    ensures result.Ok? <==> !IllTyped(MaskedLogs(logs))
    ensures result.Ok? ==> exists flats, longest :: IsTraining(logs, pads, divisor, flats, longest, result.value)
  {
    var masked := AddLossMask(logs);
    assert masked == MaskedLogs(logs);
    result := BatchedMessageLogToFlatMessage(masked, pads, divisor);
    if result.Ok? {
      ghost var flats, longest :| Described(masked, pads, divisor, flats, longest, result.value);
      assert IsTraining(logs, pads, divisor, flats, longest, result.value);
    }
  }

  lemma FlatRow(log: seq<Message>, flat: map<string, Joined>)
    requires AreTurns(log) && log != [] && Flattens(AllMasked(log), flat)
    ensures TOKENS in flat && flat[TOKENS] == Row(Tokens(log))
    ensures MASK in flat && flat[MASK] == Row(Mask(log))
  {
    JoinedColumns(log);
    var masked := AllMasked(log);
    assert TOKENS in masked[0] && MASK in masked[0];
    assert IsKey(masked, TOKENS) && IsKey(masked, MASK);
  }

  lemma StackedRow(
      flats: seq<map<string, Joined>>, pads: map<string, int>, width: nat, stacks: map<string, Stack>, key: string,
      data: seq<seq<int>>)
    requires Stacks(flats, pads, width, stacks) && |data| == |flats| > 0
    requires forall i :: 0 <= i < |flats| ==> key in flats[i] && flats[i][key] == Row(data[i])
    ensures key in stacks && stacks[key].Stacked? && |stacks[key].rows| == |flats|
    ensures forall i :: 0 <= i < |flats| ==> stacks[key].rows[i] == PadTensor(data[i], width, false, PadOf(pads, key))
  {
    assert key in flats[0];
    assert IsField(flats, key);
    assert forall i :: 0 <= i < |flats| ==> Fields(flats, key)[i] == Some(Row(data[i]));
  }

  function AllTokens(logs: seq<seq<Message>>): (r: seq<seq<int>>)
    requires forall i :: 0 <= i < |logs| ==> AreTurns(logs[i])
  {
    seq(|logs|, i requires 0 <= i < |logs| => Tokens(logs[i]))
  }

  function AllMasks(logs: seq<seq<Message>>): (r: seq<seq<int>>)
    requires forall i :: 0 <= i < |logs| ==> AreTurns(logs[i])
  {
    seq(|logs|, i requires 0 <= i < |logs| => Mask(logs[i]))
  }

  /** The flattened conversations, measured and stacked. */
  lemma TrainingFields(
      logs: seq<seq<Message>>, pads: map<string, int>, divisor: nat, flats: seq<map<string, Joined>>, longest: nat,
      batch: FlatBatch)
    requires divisor > 0 && IsTraining(logs, pads, divisor, flats, longest, batch)
    ensures |flats| == |logs| && MeasuresAll(flats, batch.lengths, longest)
    ensures Stacks(flats, pads, RoundUp(longest, divisor), batch.stacks)
    ensures forall i :: 0 <= i < |logs| ==>
              && TOKENS in flats[i] && flats[i][TOKENS] == Row(AllTokens(logs)[i])
              && MASK in flats[i] && flats[i][MASK] == Row(AllMasks(logs)[i])
  {
    hide Flattens, Stacks, IsLongest, Tokens, Mask;
    forall i | 0 <= i < |logs|
      ensures TOKENS in flats[i] && flats[i][TOKENS] == Row(AllTokens(logs)[i])
      ensures MASK in flats[i] && flats[i][MASK] == Row(AllMasks(logs)[i])
      ensures HasRow(flats[i])
    {
      FlatRow(logs[i], flats[i]);
    }
    assert HasRow(flats[0]);
  }

  /** The batch has one padded row of tokens and one of masks for every conversation. */
  lemma TrainingRows(
      logs: seq<seq<Message>>, pads: map<string, int>, divisor: nat, flats: seq<map<string, Joined>>, longest: nat,
      batch: FlatBatch)
    requires divisor > 0 && IsTraining(logs, pads, divisor, flats, longest, batch)
    ensures |batch.lengths| == |logs| == |flats|
    ensures TOKENS in batch.stacks && batch.stacks[TOKENS].Stacked? && |batch.stacks[TOKENS].rows| == |logs|
    ensures MASK in batch.stacks && batch.stacks[MASK].Stacked? && |batch.stacks[MASK].rows| == |logs|
    ensures var width := RoundUp(longest, divisor);
      forall i :: 0 <= i < |logs| ==>
        && |Tokens(logs[i])| <= batch.lengths[i] <= width
        && batch.stacks[TOKENS].rows[i] == PadTensor(Tokens(logs[i]), width, false, PadOf(pads, TOKENS))
        && batch.stacks[MASK].rows[i] == PadTensor(Mask(logs[i]), width, false, PadOf(pads, MASK))
  {
    hide Described, Stacks, IsLongest, PadTensor;
    var width := RoundUp(longest, divisor);
    RoundUpIsLeast(longest, divisor);
    TrainingFields(logs, pads, divisor, flats, longest, batch);
    StackedRow(flats, pads, width, batch.stacks, TOKENS, AllTokens(logs));
    StackedRow(flats, pads, width, batch.stacks, MASK, AllMasks(logs));
    forall i | 0 <= i < |logs| ensures |Tokens(logs[i])| <= batch.lengths[i] <= width {
      RowWithin(flats[i], Tokens(logs[i]), batch.lengths[i]);
      assert batch.lengths[i] <= longest;
    }
  }

  lemma RowWithin(flat: map<string, Joined>, tokens: seq<int>, length: nat)
    requires TOKENS in flat && flat[TOKENS] == Row(tokens) && IsLongest(flat, length)
    ensures |tokens| <= length
  {
    assert Length(flat[TOKENS]) == |tokens|;
  }

  /** The mask of a training row is 1 exactly where the assistant wrote the token, and 0 on all padding. */
  lemma MaskIsAssistantTokens(
      logs: seq<seq<Message>>, pads: map<string, int>, divisor: nat, flats: seq<map<string, Joined>>, longest: nat,
      batch: FlatBatch, i: nat, p: nat)
    requires divisor > 0 && IsTraining(logs, pads, divisor, flats, longest, batch)
    requires MASK !in pads && i < |logs| && p < RoundUp(longest, divisor)
    ensures MASK in batch.stacks && batch.stacks[MASK].Stacked? && |batch.stacks[MASK].rows| == |logs|
    ensures |batch.stacks[MASK].rows[i]| == RoundUp(longest, divisor)
    ensures batch.stacks[MASK].rows[i][p] == if WrittenByAssistant(logs[i], p) then 1 else 0
  {
    TrainingRows(logs, pads, divisor, flats, longest, batch);
    MaskAt(logs[i], p, RoundUp(longest, divisor));
  }

  /** Position p of the conversation lies in message j. */
  ghost predicate LiesIn(log: seq<Message>, j: nat, p: nat)
    requires AreTurns(log) && j < |log|
  {
    |Tokens(log[..j])| <= p < |Tokens(log[..j + 1])|
  }

  ghost predicate WrittenByAssistant(log: seq<Message>, p: nat)
    requires AreTurns(log)
  {
    exists j :: 0 <= j < |log| && LiesIn(log, j, p) && FromAssistant(log[j])
  }

  lemma MaskAt(log: seq<Message>, p: nat, width: nat)
    requires AreTurns(log) && |Tokens(log)| <= width && p < width
    ensures |PadTensor(Mask(log), width, false, 0)| == width
    ensures PadTensor(Mask(log), width, false, 0)[p] == if WrittenByAssistant(log, p) then 1 else 0
  {
    var mask := Mask(log);
    MaskLength(log);
    PadThenCut(mask, width, false, 0);
    if p < |Tokens(log)| {
      assert PadTensor(mask, width, false, 0)[p] == mask[p];
      MaskInside(log, p);
    } else {
      WrittenInside(log, p);
    }
  }

  lemma MaskInside(log: seq<Message>, p: nat)
    requires AreTurns(log) && p < |Tokens(log)| == |Mask(log)|
    ensures Mask(log)[p] == if WrittenByAssistant(log, p) then 1 else 0
  {
    var j := AuthorOf(log, p);
    OnlyAuthor(log, j, p);
  }

  lemma AuthorOf(log: seq<Message>, p: nat) returns (j: nat)
    requires AreTurns(log) && p < |Tokens(log)| == |Mask(log)|
    ensures j < |log| && LiesIn(log, j, p) && Mask(log)[p] == if FromAssistant(log[j]) then 1 else 0
  {
    var t;
    j, t := PositionHasMessage(log, p);
    MaskMarksAssistant(log, j, t);
    PrefixNext(log, j);
  }

  lemma OnlyAuthor(log: seq<Message>, j: nat, p: nat)
    requires AreTurns(log) && j < |log| && LiesIn(log, j, p)
    ensures WrittenByAssistant(log, p) <==> FromAssistant(log[j])
  {
    forall k | 0 <= k < |log| && LiesIn(log, k, p) ensures k == j {
      OneMessage(log, j, k, p);
    }
  }

  lemma OneMessage(log: seq<Message>, j: nat, k: nat, p: nat)
    requires AreTurns(log) && j < |log| && k < |log| && LiesIn(log, j, p) && LiesIn(log, k, p)
    ensures k == j
  {
    TokensGrow(log, k, j);
    TokensGrow(log, j, k);
  }

  lemma WrittenInside(log: seq<Message>, p: nat)
    requires AreTurns(log) && |Tokens(log)| <= p
    ensures !WrittenByAssistant(log, p)
  {
    forall k | 0 <= k < |log| ensures !LiesIn(log, k, p) {
      PrefixNoLonger(log, k + 1);
    }
  }

  lemma PrefixNext(log: seq<Message>, j: nat)
    requires AreTurns(log) && j < |log|
    ensures Tokens(log[..j + 1]) == Tokens(log[..j]) + Turn(log[j])
  {
    assert log[..j + 1][..j] == log[..j];
  }

  lemma {:induction false} PrefixNoLonger(log: seq<Message>, j: nat)
    requires AreTurns(log) && j <= |log|
    ensures |Tokens(log[..j])| <= |Tokens(log)|
    decreases |log| - j
  {
    if j == |log| {
      assert log[..j] == log;
    } else {
      PrefixNext(log, j);
      PrefixNoLonger(log, j + 1);
    }
  }

  lemma TokensGrow(log: seq<Message>, k: nat, j: nat)
    requires AreTurns(log) && k < |log| && j < |log|
    ensures k < j ==> |Tokens(log[..k + 1])| <= |Tokens(log[..j])|
  {
    if k < j {
      assert log[..j][..k + 1] == log[..k + 1];
      PrefixNoLonger(log[..j], k + 1);
    }
  }

  // ----- cutting a row at its input length -----

  /** How many numbers the messages of a conversation hold in a field of rows; 0 in any other field. */
  function NumbersIn(log: seq<Message>, key: string): nat {
    if AllTensors(Column(log, key)) then |Flat(Rows(Column(log, key)))| else 0
  }

  lemma {:induction false} NoColumn(log: seq<Message>, key: string)
    requires !IsKey(log, key)
    ensures Column(log, key) == []
  {
    if log == [] {
    } else {
      var n := |log| - 1;
      assert log[n] == log[..n + 1][n];
      forall i | 0 <= i < n ensures key !in log[..n][i] {
        assert log[..n][i] == log[i];
      }
      NoColumn(log[..n], key);
    }
  }

  /** The rows of a flattened conversation are as long as its messages make them. */
  lemma FlatLengths(log: seq<Message>, flat: map<string, Joined>, key: string)
    requires Flattens(log, flat)
    ensures NumbersIn(log, key) == if key in flat then Length(flat[key]) else 0
  {
    if key !in flat {
      NoColumn(log, key);
    }
  }

  lemma NoneLonger(log: seq<Message>, flat: map<string, Joined>, n: nat)
    requires Flattens(log, flat)
    ensures (forall k :: NumbersIn(log, k) <= n) <==> (forall k :: k in flat ==> Length(flat[k]) <= n)
  {
    forall k ensures NumbersIn(log, k) == if k in flat then Length(flat[k]) else 0 {
      FlatLengths(log, flat, k);
    }
  }

  /** Cutting a row of tokens at its input length gives back the conversation exactly when no field of the
      masked conversation has more numbers in it than there are tokens. */
  lemma CutRestoresTokens(
      logs: seq<seq<Message>>, pads: map<string, int>, divisor: nat, flats: seq<map<string, Joined>>, longest: nat,
      batch: FlatBatch, i: nat)
    requires divisor > 0 && IsTraining(logs, pads, divisor, flats, longest, batch) && i < |logs|
    ensures |batch.lengths| == |logs| == |flats|
    ensures TOKENS in batch.stacks && batch.stacks[TOKENS].Stacked? && |batch.stacks[TOKENS].rows| == |logs|
    ensures batch.lengths[i] <= |batch.stacks[TOKENS].rows[i]|
    ensures batch.stacks[TOKENS].rows[i][..batch.lengths[i]] == Tokens(logs[i]) <==>
            forall k :: NumbersIn(AllMasked(logs[i]), k) <= |Tokens(logs[i])|
  {
    TrainingRows(logs, pads, divisor, flats, longest, batch);
    FlatRow(logs[i], flats[i]);
    NoneLonger(AllMasked(logs[i]), flats[i], |Tokens(logs[i])|);
    CutAtLength(flats[i], Tokens(logs[i]), batch.lengths[i], RoundUp(longest, divisor), PadOf(pads, TOKENS));
  }

  lemma CutAtLength(flat: map<string, Joined>, tokens: seq<int>, n: nat, width: nat, pad: int)
    requires IsLongest(flat, n) && |tokens| <= n <= width
    ensures n <= |PadTensor(tokens, width, false, pad)|
    ensures PadTensor(tokens, width, false, pad)[..n] == tokens <==>
            forall k :: k in flat ==> Length(flat[k]) <= |tokens|
  {
    PadThenCut(tokens, width, false, pad);
    if n > |tokens| {
      var k :| k in flat && Length(flat[k]) == n;
      assert Length(flat[k]) > |tokens|;
    }
  }

  /** Every row of numbers in a message is as long as its tokens. */
  predicate EvenFields(m: Message)
    requires IsTurn(m)
  {
    forall k :: k in m ==> m[k].Tensor? ==> |m[k].data| == |Turn(m)|
  }

  lemma {:induction false} ColumnNoLonger(log: seq<Message>, key: string)
    requires AreTurns(log) && forall j :: 0 <= j < |log| ==> EvenFields(log[j])
    ensures AllTensors(Column(AllMasked(log), key)) ==> |Flat(Rows(Column(AllMasked(log), key)))| <= |Tokens(log)|
  {
    var n := |log| - 1;
    if log == [] || !AllTensors(Column(AllMasked(log), key)) {
    } else {
      var init := log[..n];
      assert AllMasked(log)[..n] == AllMasked(init);
      var before := Column(AllMasked(init), key);
      var last := AllMasked(log)[n];
      assert forall i :: 0 <= i < |before| ==> before[i] == Column(AllMasked(log), key)[i];
      ColumnNoLonger(init, key);
      if key in last {
        assert Column(AllMasked(log), key)[|before|] == last[key];
        RowsSnoc(before, last[key]);
        assert EvenFields(log[n]);
      } else {
        assert Column(AllMasked(log), key) == before;
      }
    }
  }

  /** So when every message's rows are as long as its tokens, every conversation can be cut back out. */
  lemma EvenFieldsCut(
      logs: seq<seq<Message>>, pads: map<string, int>, divisor: nat, flats: seq<map<string, Joined>>, longest: nat,
      batch: FlatBatch, i: nat)
    requires divisor > 0 && IsTraining(logs, pads, divisor, flats, longest, batch) && i < |logs|
    requires forall j :: 0 <= j < |logs[i]| ==> EvenFields(logs[i][j])
    ensures |batch.lengths| == |logs|
    ensures TOKENS in batch.stacks && batch.stacks[TOKENS].Stacked? && |batch.stacks[TOKENS].rows| == |logs|
    ensures batch.lengths[i] == |Tokens(logs[i])| <= |batch.stacks[TOKENS].rows[i]|
    ensures batch.stacks[TOKENS].rows[i][..batch.lengths[i]] == Tokens(logs[i])
  {
    CutRestoresTokens(logs, pads, divisor, flats, longest, batch, i);
    forall k ensures NumbersIn(AllMasked(logs[i]), k) <= |Tokens(logs[i])| {
      ColumnNoLonger(logs[i], k);
    }
    CutLength(batch.stacks[TOKENS].rows[i], batch.lengths[i], Tokens(logs[i]));
  }

  lemma CutLength(row: seq<int>, n: nat, tokens: seq<int>)
    requires n <= |row| && row[..n] == tokens
    ensures n == |tokens|
  {
  }

  /** One message with one token and a field of two numbers. */
  function LongField(): (log: seq<Message>)
    ensures AreTurns(log) && Tokens(log) == [7]
  {
    var message := map[ROLE := Other("user"), TOKENS := Tensor([7]), "values" := Tensor([1, 2])];
    assert Tokens([message]) == Tokens([message][..0]) + Turn(message);
    [message]
  }

  /** Its row of tokens, cut at its input length, is not the conversation. */
  lemma LongFieldIsNotCut(
      pads: map<string, int>, divisor: nat, flats: seq<map<string, Joined>>, longest: nat, batch: FlatBatch)
    requires divisor > 0 && IsTraining([LongField()], pads, divisor, flats, longest, batch)
    ensures |batch.lengths| == 1 && TOKENS in batch.stacks && batch.stacks[TOKENS].Stacked?
    ensures |batch.stacks[TOKENS].rows| == 1 && batch.lengths[0] <= |batch.stacks[TOKENS].rows[0]|
    ensures batch.stacks[TOKENS].rows[0][..batch.lengths[0]] != Tokens(LongField())
  {
    CutRestoresTokens([LongField()], pads, divisor, flats, longest, batch, 0);
    LongFieldNumbers();
  }

  lemma LongFieldNumbers()
    ensures NumbersIn(AllMasked(LongField()), "values") == 2
  {
    var masked := AllMasked(LongField());
    assert Column(masked, "values") == Column(masked[..0], "values") + [Tensor([1, 2])];
    RowsSnoc([], Tensor([1, 2]));
  }

  /** Rows are as wide as the least multiple of the divisor that covers every conversation. */
  lemma WidthIsLeast(
      logs: seq<seq<Message>>, pads: map<string, int>, divisor: nat, flats: seq<map<string, Joined>>, longest: nat,
      batch: FlatBatch)
    requires divisor > 0 && IsTraining(logs, pads, divisor, flats, longest, batch)
    ensures var width := RoundUp(longest, divisor);
      && width % divisor == 0
      && (forall i :: 0 <= i < |batch.lengths| ==> batch.lengths[i] <= width)
      && (forall q: nat :: (forall i :: 0 <= i < |batch.lengths| ==> batch.lengths[i] <= q * divisor) ==>
            width <= q * divisor)
  {
    TrainingRows(logs, pads, divisor, flats, longest, batch);
    RoundUpIsLeast(longest, divisor);
  }
}
