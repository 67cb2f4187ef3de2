/** The lookup of the Aurora connection string among the outputs of a
    CloudFormation stack. The outputs list is taken as a value: fetching it
    from the stack service is not part of this model. */
module StackOutputs {
  import opened Wrappers

  /** One entry of a stack's `Outputs` list. */
  datatype Output = Output(key: string, value: string)

  /** The output key the lookup searches for. */
  const ConnectionStringKey: string := "JDBCAuroraConnectionString"

  /** A linear scan that returns the value of the FIRST output carrying
      ConnectionStringKey, and nothing when the scan falls through. */
  function LookupConnectionString(outputs: seq<Output>): (r: Option<string>)
    ensures r.None? <==> forall i :: 0 <= i < |outputs| ==> outputs[i].key != ConnectionStringKey
    ensures r.Some? ==>
      exists i :: 0 <= i < |outputs| && outputs[i].key == ConnectionStringKey &&
        r.value == outputs[i].value &&
        forall j :: 0 <= j < i ==> outputs[j].key != ConnectionStringKey
  {
    if outputs == [] then None
    else if outputs[0].key == ConnectionStringKey then Some(outputs[0].value)
    else LookupConnectionString(outputs[1..])
  }

  /** The result is fixed by the first matching entry: whatever follows a
      list that already holds a match is never consulted, and a list without
      a match defers entirely to what follows it. */
  lemma {:induction false} LookupAppend(front: seq<Output>, back: seq<Output>)
    ensures LookupConnectionString(front + back) ==
      if LookupConnectionString(front).Some? then LookupConnectionString(front)
      else LookupConnectionString(back)
  {
    if front == [] {
      assert front + back == back;
    } else {
      assert (front + back)[0] == front[0];
      assert (front + back)[1..] == front[1..] + back;
      if front[0].key != ConnectionStringKey {
        LookupAppend(front[1..], back);
      }
    }
  }
}
