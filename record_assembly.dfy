/** The record assembly of the ingest handler: the token list of the
    fetched object is regrouped, nine tokens at a time, into records keyed
    by the nine column names of the homes table. */
module RecordAssembly {
  import opened Wrappers
  import opened WhitespaceSplit

  /** A token of the payload: the bytes are kept as they are, unconverted. */
  type Token = seq<byte>

  /** A record is a dictionary from column name to token. */
  type Record = map<string, Token>

  /** The column names, in the order in which they take consecutive tokens. */
  const FieldNames: seq<string> :=
    ["Sell", "List", "Living", "Rooms", "Beds", "Baths", "Age", "Acres", "Taxes"]

  /** The failure of an out-of-range read of the token list. */
  datatype Error = IndexError(index: nat)

  /** The column names as a set. */
  const FieldSet: set<string> :=
    {"Sell", "List", "Living", "Rooms", "Beds", "Baths", "Age", "Acres", "Taxes"}

  /** A record holds exactly the nine columns. */
  predicate HasFields(r: Record) {
    r.Keys == FieldSet
  }

  /** Reads one token, failing as an out-of-range index does. */
  function At(lines: seq<Token>, index: nat): Result<Token, Error> {
    if index < |lines| then Ok(lines[index]) else Err(IndexError(index))
  }

  /** The record built from one stride of nine tokens. */
  function RecordOf(c: seq<Token>): (r: Record)
    requires |c| == 9
    ensures HasFields(r)
    ensures forall k :: 0 <= k < 9 ==> r[FieldNames[k]] == c[k]
  {
    map["Sell" := c[0], "List" := c[1], "Living" := c[2], "Rooms" := c[3],
        "Beds" := c[4], "Baths" := c[5], "Age" := c[6], "Acres" := c[7],
        "Taxes" := c[8]]
  }

  /** The values of a record's columns, in column order: the stride that
      RecordOf turns back into the same record. */
  function FieldsOf(r: Record): (c: seq<Token>)
    requires HasFields(r)
    ensures |c| == 9
    ensures forall k :: 0 <= k < 9 ==> c[k] == r[FieldNames[k]]
    ensures RecordOf(c) == r
  {
    seq(9, k requires 0 <= k < 9 => r[FieldNames[k]])
  }

  /** The records of a token list, one per complete stride, in stride
      order: the reference definition the assembly loop is proved against. */
  function RecordsOf(lines: seq<Token>): (recs: seq<Record>)
    ensures |recs| == |lines| / 9
    ensures forall j :: 0 <= j < |recs| ==> HasFields(recs[j])
    decreases |lines|
  {
    if |lines| < 9 then []
    else [RecordOf(lines[..9])] + RecordsOf(lines[9..])
  }

  /** The tokens of a record list, stride after stride. */
  function Flatten(recs: seq<Record>): (lines: seq<Token>)
    requires forall j :: 0 <= j < |recs| ==> HasFields(recs[j])
    ensures |lines| == 9 * |recs|
  {
    if recs == [] then [] else FieldsOf(recs[0]) + Flatten(recs[1..])
  }

  /** Field k of record j is token 9*j + k. */
  lemma {:induction false} RecordsOfField(lines: seq<Token>, j: nat, k: nat)
    requires j < |lines| / 9 && k < 9
    ensures 9 * j + k < |lines|
    ensures RecordsOf(lines)[j][FieldNames[k]] == lines[9 * j + k]
    decreases j
  {
    if j > 0 {
      RecordsOfField(lines[9..], j - 1, k);
    }
  }

  /** Assembly only appends: the records of a token list that ends on a
      stride boundary come before, and unchanged by, those of what follows. */
  lemma {:induction false} RecordsOfAppend(front: seq<Token>, back: seq<Token>)
    requires |front| % 9 == 0
    ensures RecordsOf(front + back) == RecordsOf(front) + RecordsOf(back)
    decreases |front|
  {
    if |front| == 0 {
      assert front + back == back;
    } else {
      var whole := front + back;
      assert whole[..9] == front[..9];
      assert whole[9..] == front[9..] + back;
      RecordsOfAppend(front[9..], back);
    }
  }

  /** One more stride adds one record, at the end. */
  lemma RecordsOfNextStride(lines: seq<Token>, i: nat)
    requires i % 9 == 0 && i + 9 <= |lines|
    ensures RecordsOf(lines[..i + 9]) == RecordsOf(lines[..i]) + [RecordOf(lines[i..i + 9])]
  {
    var stride := lines[i..i + 9];
    assert lines[..i + 9] == lines[..i] + stride;
    RecordsOfAppend(lines[..i], stride);
    assert stride[..9] == stride && stride[9..] == [];
  }

  /** When the token count is a multiple of nine, the records hold every
      token once, in order. */
  lemma {:induction false} FlattenRecordsOf(lines: seq<Token>)
    requires |lines| % 9 == 0
    ensures Flatten(RecordsOf(lines)) == lines
    decreases |lines|
  {
    if |lines| > 0 {
      var recs := RecordsOf(lines);
      assert recs[1..] == RecordsOf(lines[9..]);
      FlattenRecordsOf(lines[9..]);
      assert FieldsOf(recs[0]) == lines[..9];
      assert lines == lines[..9] + lines[9..];
    }
  }

  /** Any list of nine-column records is rebuilt from its tokens. */
  lemma {:induction false} RecordsOfFlatten(recs: seq<Record>)
    requires forall j :: 0 <= j < |recs| ==> HasFields(recs[j])
    ensures RecordsOf(Flatten(recs)) == recs
  {
    if recs != [] {
      var lines := Flatten(recs);
      var head := FieldsOf(recs[0]);
      var tail := Flatten(recs[1..]);
      assert lines == head + tail;
      assert lines[..9] == head && lines[9..] == tail;
      assert RecordsOf(lines) == [RecordOf(head)] + RecordsOf(tail);
      RecordsOfFlatten(recs[1..]);
      assert recs == [recs[0]] + recs[1..];
    }
  }

  /** The body of the assembly loop: a fresh record filled column by
      column from the stride that starts at `i`. A read past the end of the
      list fails, and the first read to fail is always the one of index
      |lines|. */
  method BuildRecord(lines: seq<Token>, i: nat) returns (res: Result<Record, Error>)
    requires i < |lines|
    ensures i + 9 <= |lines| ==> res == Ok(RecordOf(lines[i..i + 9]))
    ensures i + 9 > |lines| ==> res == Err(IndexError(|lines|))
  {
    var record: Record := map[];
    record := record["Sell" := lines[i]];
    var list :- At(lines, i + 1);
    record := record["List" := list];
    var living :- At(lines, i + 2);
    record := record["Living" := living];
    var rooms :- At(lines, i + 3);
    record := record["Rooms" := rooms];
    var beds :- At(lines, i + 4);
    record := record["Beds" := beds];
    var baths :- At(lines, i + 5);
    record := record["Baths" := baths];
    var age :- At(lines, i + 6);
    record := record["Age" := age];
    var acres :- At(lines, i + 7);
    record := record["Acres" := acres];
    var taxes :- At(lines, i + 8);
    record := record["Taxes" := taxes];
    return Ok(record);
  }

  /** The assembly loop: walks the token list in strides of nine and
      appends one record per stride. A stride cut short by the end of the
      list stops the whole assembly, and the records built so far are
      dropped with it. */
  method AssembleRecords(lines: seq<Token>) returns (res: Result<seq<Record>, Error>)
    ensures |lines| % 9 == 0 ==> res == Ok(RecordsOf(lines))
    ensures |lines| % 9 != 0 ==> res == Err(IndexError(|lines|))
  {
    var recList: seq<Record> := [];
    var i := 0;
    while i < |lines|
      invariant i <= |lines| && i % 9 == 0
      invariant recList == RecordsOf(lines[..i])
    {
      var built := BuildRecord(lines, i);
      if built.Err? {
        assert i < |lines| < i + 9;
        return Err(built.error);
      }
      var record := built.value;
      RecordsOfNextStride(lines, i);
      recList := recList + [record];
      i := i + 9;
    }
    assert lines[..i] == lines;
    return Ok(recList);
  }

  /** The handler's parsing of the fetched object body: split into
      tokens, then assembled into records. */
  method ParseBody(body: seq<byte>) returns (res: Result<seq<Record>, Error>)
    ensures |Split(body)| % 9 == 0 ==> res == Ok(RecordsOf(Split(body)))
    ensures |Split(body)| % 9 != 0 ==> res == Err(IndexError(|Split(body)|))
  {
    var lines := Split(body);
    res := AssembleRecords(lines);
  }

  /** Every token of a record list whose values are tokens is a token. */
  lemma {:induction false} FlattenTokens(recs: seq<Record>)
    requires forall j :: 0 <= j < |recs| ==> HasFields(recs[j])
    requires forall j, f :: 0 <= j < |recs| && f in recs[j] ==> IsToken(recs[j][f])
    ensures forall i :: 0 <= i < |Flatten(recs)| ==> IsToken(Flatten(recs)[i])
  {
    if recs != [] {
      FlattenTokens(recs[1..]);
      var head := FieldsOf(recs[0]);
      assert forall k :: 0 <= k < 9 ==> IsToken(head[k]) by {
        forall k | 0 <= k < 9
          ensures IsToken(head[k])
        {
          assert FieldNames[k] in recs[0];
        }
      }
      assert Flatten(recs) == head + Flatten(recs[1..]);
    }
  }

  /** End to end: an object body that lays out the tokens of any list of
      nine-column records, with any whitespace around and between them,
      splits into exactly those tokens, and they assemble into exactly
      those records. */
  lemma PayloadRoundTrip(gaps: seq<seq<byte>>, recs: seq<Record>)
    requires forall j :: 0 <= j < |recs| ==> HasFields(recs[j])
    requires forall j, f :: 0 <= j < |recs| && f in recs[j] ==> IsToken(recs[j][f])
    requires IsLayout(gaps, 9 * |recs|)
    ensures Split(Layout(gaps, Flatten(recs))) == Flatten(recs)
    ensures |Flatten(recs)| % 9 == 0
    ensures RecordsOf(Flatten(recs)) == recs
  {
    FlattenTokens(recs);
    SplitLayout(gaps, Flatten(recs));
    RecordsOfFlatten(recs);
  }
}
