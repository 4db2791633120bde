/** Flattening conversations: the fields of a conversation's messages are joined, and the joined fields of a
    batch of conversations are padded to one width. */
module Messages {
  import opened Options
  import opened Sequences
  import Arithmetic

  datatype Result<T> = Ok(value: T) | TypeError

  /** A field of a message: a row of numbers or something else. */
  datatype Value = Tensor(data: seq<int>) | Other(text: string)

  type Message = map<string, Value>

  /** A joined field: one row of numbers, or the list of the values found. */
  datatype Joined = Row(data: seq<int>) | Values(values: seq<Value>)

  // ----- one conversation -----

  /** What the messages that have a field hold in it, in order. */
  function Column(log: seq<Message>, key: string): seq<Value> {
    if log == [] then []
    else
      var last := log[|log| - 1];
      Column(log[..|log| - 1], key) + if key in last then [last[key]] else []
  }

  predicate AllTensors(values: seq<Value>) {
    forall i :: 0 <= i < |values| ==> values[i].Tensor?
  }

  /** Fields that start with a row of numbers must hold rows throughout. */
  predicate WellTyped(values: seq<Value>) {
    values != [] && values[0].Tensor? ==> AllTensors(values)
  }

  function Rows(values: seq<Value>): (r: seq<seq<int>>)
    requires AllTensors(values)
  {
    seq(|values|, i requires 0 <= i < |values| => values[i].data)
  }

  function Join(values: seq<Value>): Joined
    requires WellTyped(values)
  {
    if values != [] && values[0].Tensor? then Row(Flat(Rows(values))) else Values(values)
  }

  ghost predicate IsKey(log: seq<Message>, key: string) {
    exists i :: 0 <= i < |log| && key in log[i]
  }

  ghost predicate Flattens(log: seq<Message>, flat: map<string, Joined>) {
    && (forall k :: k in flat <==> IsKey(log, k))
    && (forall k :: k in flat ==> WellTyped(Column(log, k)) && flat[k] == Join(Column(log, k)))
  }

  method AllKeys(log: seq<Message>) returns (keys: set<string>)
    ensures forall k :: k in keys <==> IsKey(log, k)
  {
    keys := {};
    for i := 0 to |log|
      invariant forall k :: k in keys <==> exists j :: 0 <= j < i && k in log[j]
    {
      keys := keys + log[i].Keys;
    }
  }

  /** Appends a message's fields to the lists collected so far, field by field. */
  method Collect(message: Message, keys: set<string>, lists: map<string, seq<Value>>)
      returns (more: map<string, seq<Value>>)
    requires lists.Keys == keys
    ensures more.Keys == keys
    ensures forall k :: k in keys ==> more[k] == lists[k] + if k in message then [message[k]] else []
  {
    more := lists;
    var todo := keys;
    while todo != {}
      invariant todo <= keys && more.Keys == keys
      invariant forall k :: k in keys ==>
                  more[k] == lists[k] + if k !in todo && k in message then [message[k]] else []
    {
      var key :| key in todo;
      todo := todo - {key};
      if key in message {
        more := more[key := more[key] + [message[key]]];
      }
    }
  }

  method CollectAll(log: seq<Message>, keys: set<string>) returns (lists: map<string, seq<Value>>)
    ensures lists.Keys == keys
    ensures forall k :: k in keys ==> lists[k] == Column(log, k)
  {
    lists := map k | k in keys :: [];
    for i := 0 to |log|
      invariant lists.Keys == keys
      invariant forall k :: k in keys ==> lists[k] == Column(log[..i], k)
    {
      assert log[..i + 1][..i] == log[..i];
      lists := Collect(log[i], keys, lists);
    }
    assert log[..|log|] == log;
  }

  /** Joins a conversation's messages field by field. */
  method MessageLogToFlatMessages(log: seq<Message>) returns (result: Result<map<string, Joined>>)
    ensures result.Ok? ==> Flattens(log, result.value)
    ensures result.TypeError? ==> exists k :: IsKey(log, k) && !WellTyped(Column(log, k))
  {
    var keys := AllKeys(log);
    var lists := CollectAll(log, keys);
    var flat: map<string, Joined> := map[];
    var todo := keys;
    while todo != {}
      invariant todo <= keys && flat.Keys == keys - todo
      invariant forall k :: k in flat ==> WellTyped(Column(log, k)) && flat[k] == Join(Column(log, k))
    {
      var key :| key in todo;
      todo := todo - {key};
      if !WellTyped(lists[key]) {
        return TypeError;
      }
      flat := flat[key := Join(lists[key])];
    }
    return Ok(flat);
  }

  // ----- padding -----

  function PadTensor(tensor: seq<int>, width: nat, left: bool, pad: int): (r: seq<int>)
    ensures |tensor| <= width ==> |r| == width
    ensures |tensor| > width ==> r == tensor
  {
    if width <= |tensor| then tensor
    else
      var padding := seq(width - |tensor|, _ => pad);
      if left then padding + tensor else tensor + padding
  }

  /** Padding adds only the pad value, on the side asked for: the row can be cut back out. */
  lemma PadThenCut(tensor: seq<int>, width: nat, left: bool, pad: int)
    requires |tensor| <= width
    ensures var r, n := PadTensor(tensor, width, left, pad), width - |tensor|;
      if left then r[n..] == tensor && forall t :: 0 <= t < n ==> r[t] == pad
      else r[..|tensor|] == tensor && forall t :: |tensor| <= t < width ==> r[t] == pad
  {
  }

  function RoundUp(n: nat, divisor: nat): nat
    requires divisor > 0
  {
    if n % divisor != 0 then (n / divisor + 1) * divisor else n
  }

  /** The least multiple that covers a length. */
  lemma RoundUpIsLeast(n: nat, divisor: nat)
    requires divisor > 0
    ensures Arithmetic.IsLeastMultiple(RoundUp(n, divisor), n, divisor)
  {
    var m := if n % divisor != 0 then n / divisor + 1 else n / divisor;
    assert n == n / divisor * divisor + n % divisor;
    Arithmetic.OneMore(n / divisor, divisor);
    Arithmetic.MultipleHasNoRest(m, divisor);
    forall q: nat | n <= q * divisor ensures RoundUp(n, divisor) <= q * divisor {
      Arithmetic.NoSmallerMultiple(n, divisor, m, q);
    }
  }

  // ----- a batch of conversations -----

  /** A field of a batch: stacked rows, the joined values as they are, or the first value of each. */
  datatype Stack =
    | Stacked(rows: seq<seq<int>>)
    | Unstacked(fields: seq<Option<Joined>>)
    | Firsts(firsts: seq<Option<Value>>)

  datatype FlatBatch = FlatBatch(stacks: map<string, Stack>, lengths: seq<nat>)

  function Length(field: Joined): nat {
    if field.Row? then |field.data| else 0
  }

  function Get(flat: map<string, Joined>, key: string): Option<Joined> {
    if key in flat then Some(flat[key]) else None
  }

  /** n is the length of the longest row of numbers in a flattened conversation, or 0 if there is none. */
  ghost predicate IsLongest(flat: map<string, Joined>, n: nat) {
    && (forall k :: k in flat ==> Length(flat[k]) <= n)
    && (n == 0 || exists k :: k in flat && Length(flat[k]) == n)
  }

  ghost predicate HasRow(flat: map<string, Joined>) {
    exists k :: k in flat && flat[k].Row?
  }

  method LongestRow(flat: map<string, Joined>) returns (n: nat, found: bool)
    ensures IsLongest(flat, n)
    ensures found <==> HasRow(flat)
  {
    n, found := 0, false;
    var todo := flat.Keys;
    while todo != {}
      invariant todo <= flat.Keys
      invariant forall k :: k in flat && k !in todo ==> Length(flat[k]) <= n
      invariant n == 0 || exists k :: k in flat && Length(flat[k]) == n
      invariant found <==> exists k :: k in flat && k !in todo && flat[k].Row?
    {
      var key :| key in todo;
      todo := todo - {key};
      if flat[key].Row? {
        found := true;
        if n < |flat[key].data| {
          n := |flat[key].data|;
        }
      }
    }
  }

  /** Every conversation's input length, the longest of them, and whether there are any rows at all. */
  method InputLengths(flats: seq<map<string, Joined>>) returns (lengths: seq<nat>, longest: nat, found: bool)
    ensures MeasuresAll(flats, lengths, longest)
    ensures found <==> AnyRow(flats)
  {
    lengths, longest, found := [], 0, false;
    for i := 0 to |flats|
      invariant |lengths| == i && forall j :: 0 <= j < i ==> IsLongest(flats[j], lengths[j])
      invariant forall j :: 0 <= j < i ==> lengths[j] <= longest
      invariant longest == 0 || longest in lengths
      invariant found <==> exists j :: 0 <= j < i && HasRow(flats[j])
    {
      var n, rows := LongestRow(flats[i]);
      lengths := lengths + [n];
      found := found || rows;
      if longest < n {
        longest := n;
      }
    }
  }

  predicate Stackable(fields: seq<Option<Joined>>) {
    forall i :: 0 <= i < |fields| ==> fields[i].Some? ==> fields[i].value.Row?
  }

  predicate StartsWithRow(fields: seq<Option<Joined>>) {
    fields != [] && fields[0].Some? && fields[0].value.Row?
  }

  function Data(field: Option<Joined>): seq<int> {
    if field.Some? && field.value.Row? then field.value.data else []
  }

  function Fields(flats: seq<map<string, Joined>>, key: string): (r: seq<Option<Joined>>) {
    seq(|flats|, i requires 0 <= i < |flats| => Get(flats[i], key))
  }

  /** A field is stacked when the first conversation has a row in it; missing rows count as empty. */
  function StackFields(fields: seq<Option<Joined>>, width: nat, pad: int): Stack
    requires StartsWithRow(fields) ==> Stackable(fields)
  {
    if StartsWithRow(fields) then
      Stacked(seq(|fields|, i requires 0 <= i < |fields| => PadTensor(Data(fields[i]), width, false, pad)))
    else Unstacked(fields)
  }

  function PadOf(pads: map<string, int>, key: string): int {
    if key in pads then pads[key] else 0
  }

  ghost predicate IsField(flats: seq<map<string, Joined>>, key: string) {
    exists i :: 0 <= i < |flats| && key in flats[i]
  }

  ghost predicate Stacks(
      flats: seq<map<string, Joined>>, pads: map<string, int>, width: nat, stacks: map<string, Stack>)
  {
    && (forall k :: k in stacks <==> IsField(flats, k))
    && (forall k :: k in stacks ==>
          && (StartsWithRow(Fields(flats, k)) ==> Stackable(Fields(flats, k)))
          && stacks[k] == StackFields(Fields(flats, k), width, PadOf(pads, k)))
  }

  /** A field is stacked exactly when the first conversation has a row in it. */
  lemma StackedIff(
      flats: seq<map<string, Joined>>, pads: map<string, int>, width: nat, stacks: map<string, Stack>, key: string,
      i: nat)
    requires Stacks(flats, pads, width, stacks) && key in stacks && i < |flats|
    ensures stacks[key].Stacked? <==> key in flats[0] && flats[0][key].Row?
    ensures !stacks[key].Stacked? ==>
      && stacks[key].Unstacked? && |stacks[key].fields| == |flats|
      && stacks[key].fields[i] == if key in flats[i] then Some(flats[i][key]) else None
  {
    assert Fields(flats, key)[0] == Get(flats[0], key);
  }

  /** Every row of a stacked field is the conversation's own row, or an empty one if it has none, followed by the pad
      value given for the field, or by zeros. */
  lemma StackedMeaning(
      flats: seq<map<string, Joined>>, pads: map<string, int>, width: nat, stacks: map<string, Stack>, key: string,
      i: nat)
    requires Stacks(flats, pads, width, stacks) && key in stacks && stacks[key].Stacked? && i < |flats|
    ensures |stacks[key].rows| == |flats|
    ensures var row := stacks[key].rows[i];
      var data := if key in flats[i] && flats[i][key].Row? then flats[i][key].data else [];
      && |row| == (if |data| < width then width else |data|) && row[..|data|] == data
      && forall p :: |data| <= p < |row| ==> row[p] == if key in pads then pads[key] else 0
  {
    var data := Data(Fields(flats, key)[i]);
    if |data| <= width {
      PadThenCut(data, width, false, PadOf(pads, key));
    }
  }

  /** Without any rows of numbers, the first value of every list is kept. */
  function FirstOf(field: Option<Joined>): Option<Value> {
    if field.Some? && field.value.Values? && field.value.values != [] then Some(field.value.values[0]) else None
  }

  function FirstsOf(fields: seq<Option<Joined>>): (r: seq<Option<Value>>) {
    seq(|fields|, i requires 0 <= i < |fields| => FirstOf(fields[i]))
  }

  /** The first value of a list, if the conversation has the field and its list is not empty. */
  lemma FirstsMeaning(flats: seq<map<string, Joined>>, key: string, i: nat)
    requires i < |flats|
    ensures var firsts := FirstsOf(Fields(flats, key));
      |firsts| == |flats| &&
      if key in flats[i] && flats[i][key].Values? && |flats[i][key].values| > 0
      then firsts[i] == Some(flats[i][key].values[0])
      else firsts[i] == None
  {
  }

  ghost predicate Described(
      logs: seq<seq<Message>>, pads: map<string, int>, divisor: nat, flats: seq<map<string, Joined>>, longest: nat,
      batch: FlatBatch)
    requires divisor > 0
  {
    && FlattensAll(logs, flats)
    && if AnyRow(flats) then
         && MeasuresAll(flats, batch.lengths, longest)
         && Stacks(flats, pads, RoundUp(longest, divisor), batch.stacks)
       else
         && batch.lengths == []
         && (forall k :: k in batch.stacks <==> IsField(flats, k))
         && (forall k :: k in batch.stacks ==> batch.stacks[k] == Firsts(FirstsOf(Fields(flats, k))))
  }

  ghost predicate AnyRow(flats: seq<map<string, Joined>>) {
    exists i :: 0 <= i < |flats| && HasRow(flats[i])
  }

  /** The input length of every conversation, and the longest of them. */
  ghost predicate MeasuresAll(flats: seq<map<string, Joined>>, lengths: seq<nat>, longest: nat) {
    && |lengths| == |flats|
    && (forall i :: 0 <= i < |flats| ==> IsLongest(flats[i], lengths[i]))
    && (forall i :: 0 <= i < |flats| ==> lengths[i] <= longest)
    && (longest == 0 || longest in lengths)
  }

  /** Some field starts with a row of numbers and goes on with something else, in a conversation or across
      conversations. */
  ghost predicate IllTyped(logs: seq<seq<Message>>) {
    || (exists i :: 0 <= i < |logs| && IllTypedLog(logs[i]))
    || (exists flats, k :: FlattensAll(logs, flats) && StartsWithRow(Fields(flats, k)) && !Stackable(Fields(flats, k)))
  }

  ghost predicate IllTypedLog(log: seq<Message>) {
    exists k :: IsKey(log, k) && !WellTyped(Column(log, k))
  }

  ghost predicate FlattensAll(logs: seq<seq<Message>>, flats: seq<map<string, Joined>>) {
    |flats| == |logs| && forall i :: 0 <= i < |logs| ==> Flattens(logs[i], flats[i])
  }

  lemma FlattensAllOnce(logs: seq<seq<Message>>, a: seq<map<string, Joined>>, b: seq<map<string, Joined>>)
    requires FlattensAll(logs, a) && FlattensAll(logs, b)
    ensures a == b
  {
    forall i | 0 <= i < |logs| ensures a[i] == b[i] {
      assert Flattens(logs[i], a[i]) && Flattens(logs[i], b[i]);
      assert a[i].Keys == b[i].Keys;
    }
  }

  /** Only batches without such a field are flattened. */
  lemma DescribedIsWellTyped(
      logs: seq<seq<Message>>, pads: map<string, int>, divisor: nat, flats: seq<map<string, Joined>>, longest: nat,
      batch: FlatBatch)
    requires divisor > 0 && Described(logs, pads, divisor, flats, longest, batch)
    ensures !IllTyped(logs)
  {
    forall i | 0 <= i < |logs| ensures !IllTypedLog(logs[i]) {
      FlattenedIsWellTyped(logs[i], flats[i]);
    }
    forall others, k | FlattensAll(logs, others) && StartsWithRow(Fields(others, k))
      ensures Stackable(Fields(others, k))
    {
      FlattensAllOnce(logs, others, flats);
      StartsWithField(flats, k);
    }
  }

  lemma FlattenedIsWellTyped(log: seq<Message>, flat: map<string, Joined>)
    requires Flattens(log, flat)
    ensures !IllTypedLog(log)
  {
    forall k | IsKey(log, k) ensures WellTyped(Column(log, k)) {
      assert k in flat;
    }
  }

  lemma StartsWithField(flats: seq<map<string, Joined>>, k: string)
    requires StartsWithRow(Fields(flats, k))
    ensures AnyRow(flats) && IsField(flats, k)
  {
    assert Fields(flats, k)[0] == Get(flats[0], k);
    assert HasRow(flats[0]) && k in flats[0];
  }

  method FlattenAll(logs: seq<seq<Message>>) returns (result: Result<seq<map<string, Joined>>>)
    ensures result.TypeError? ==> IllTyped(logs)
    ensures result.Ok? ==>
              |result.value| == |logs| && forall i :: 0 <= i < |logs| ==> Flattens(logs[i], result.value[i])
  {
    var flats: seq<map<string, Joined>> := [];
    for i := 0 to |logs|
      invariant |flats| == i && forall j :: 0 <= j < i ==> Flattens(logs[j], flats[j])
    {
      var flat := MessageLogToFlatMessages(logs[i]);
      if flat.TypeError? {
        return TypeError;
      }
      flats := flats + [flat.value];
    }
    return Ok(flats);
  }

  method FieldNames(flats: seq<map<string, Joined>>) returns (keys: set<string>)
    ensures forall k :: k in keys <==> IsField(flats, k)
  {
    keys := {};
    for i := 0 to |flats|
      invariant forall k :: k in keys <==> exists j :: 0 <= j < i && k in flats[j]
    {
      keys := keys + flats[i].Keys;
    }
  }

  method StackAll(flats: seq<map<string, Joined>>, keys: set<string>, pads: map<string, int>, width: nat)
      returns (result: Result<map<string, Stack>>)
    requires forall k :: k in keys <==> IsField(flats, k)
    ensures result.TypeError? ==> exists k :: StartsWithRow(Fields(flats, k)) && !Stackable(Fields(flats, k))
    ensures result.Ok? ==> Stacks(flats, pads, width, result.value)
  {
    var stacks: map<string, Stack> := map[];
    var todo := keys;
    while todo != {}
      invariant todo <= keys && stacks.Keys == keys - todo
      invariant forall k :: k in stacks ==>
                  && (StartsWithRow(Fields(flats, k)) ==> Stackable(Fields(flats, k)))
                  && stacks[k] == StackFields(Fields(flats, k), width, PadOf(pads, k))
    {
      var key :| key in todo;
      todo := todo - {key};
      var fields := Fields(flats, key);
      if StartsWithRow(fields) && !Stackable(fields) {
        return TypeError;
      }
      stacks := stacks[key := StackFields(fields, width, PadOf(pads, key))];
    }
    return Ok(stacks);
  }

  method BatchedMessageLogToFlatMessage(logs: seq<seq<Message>>, pads: map<string, int>, divisor: nat)
      returns (result: Result<FlatBatch>)
    requires divisor > 0
    ensures result.Ok? <==> !IllTyped(logs)
    ensures result.Ok? ==> exists flats, longest :: Described(logs, pads, divisor, flats, longest, result.value)
  {
    var flattened := FlattenAll(logs);
    if flattened.TypeError? {
      return TypeError;
    }
    var flats := flattened.value;
    var keys := FieldNames(flats);
    var lengths, longest, found := InputLengths(flats);
    if !found {
      var stacks := map k | k in keys :: Firsts(FirstsOf(Fields(flats, k)));
      var batch := FlatBatch(stacks, []);
      assert Described(logs, pads, divisor, flats, longest, batch);
      DescribedIsWellTyped(logs, pads, divisor, flats, longest, batch);
      return Ok(batch);
    }
    var stacked := StackAll(flats, keys, pads, RoundUp(longest, divisor));
    if stacked.TypeError? {
      assert FlattensAll(logs, flats);
      return TypeError;
    }
    var batch := FlatBatch(stacked.value, lengths);
    assert Described(logs, pads, divisor, flats, longest, batch);
    DescribedIsWellTyped(logs, pads, divisor, flats, longest, batch);
    return Ok(batch);
  }
}
