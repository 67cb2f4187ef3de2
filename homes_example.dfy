/** The single-line object body of the homes table used as a worked
    example: "100 120 80 5 3 2 10 0.5 1200" yields exactly one record. Byte
    sequences are written as their ASCII codes. */
module HomesExample {
  import opened WhitespaceSplit
  import opened RecordAssembly

  /** "100" */
  const SellBytes: seq<byte> := [49, 48, 48]

  /** "120" */
  const ListBytes: seq<byte> := [49, 50, 48]

  /** "80" */
  const LivingBytes: seq<byte> := [56, 48]

  /** "5" */
  const RoomsBytes: seq<byte> := [53]

  /** "3" */
  const BedsBytes: seq<byte> := [51]

  /** "2" */
  const BathsBytes: seq<byte> := [50]

  /** "10" */
  const AgeBytes: seq<byte> := [49, 48]

  /** "0.5" */
  const AcresBytes: seq<byte> := [48, 46, 53]

  /** "1200" */
  const TaxesBytes: seq<byte> := [49, 50, 48, 48]

  /** The nine tokens of the body, in order. */
  const Tokens: seq<seq<byte>> := [SellBytes, ListBytes, LivingBytes, RoomsBytes, BedsBytes, BathsBytes, AgeBytes, AcresBytes, TaxesBytes]

  /** "100 120 80 5 3 2 10 0.5 1200": the nine tokens, one space apart. */
  const Body: seq<byte> := Join(Tokens)

  /** The body splits into its nine tokens. */
  lemma BodyTokens()
    ensures Split(Body) == Tokens
  {
    assert [] + Body == Body;
    SplitJoin([], Tokens);
  }

  /** The body parses into the one record whose columns hold its nine
      tokens, in order and unconverted. */
  lemma {:induction false} BodyRecord()
    ensures |Split(Body)| % 9 == 0
    ensures RecordsOf(Split(Body)) ==
      [map["Sell" := SellBytes, "List" := ListBytes, "Living" := LivingBytes, "Rooms" := RoomsBytes, "Beds" := BedsBytes, "Baths" := BathsBytes, "Age" := AgeBytes, "Acres" := AcresBytes, "Taxes" := TaxesBytes]]
  {
    BodyTokens();
    assert Tokens[..9] == Tokens && Tokens[9..] == [];
  }
}
