# Ingest trigger handler of aws-glue: record assembly and stack-output lookup

This project models the parsing core of the S3-triggered Lambda handler in
`lambda_functions/s3_2_rds.py`, and proves properties of that model.

The handler reads the body of a fixed object (`aurora/homes.csv` in bucket
`bg-glue`). It splits the body on whitespace into a flat token list. Then a
`while` loop walks that list in strides of nine tokens. For each stride it
builds one dictionary record, with keys `Sell, List, Living, Rooms, Beds,
Baths, Age, Acres, Taxes`, and appends it to `recList`. A helper,
`_get_stack_outputs`, scans a stack's outputs for the key
`JDBCAuroraConnectionString` and returns the first matching value.

The modules:

- `WhitespaceSplit` (`whitespace_split.dfy`): the argument-less
  `bytes.split()` of line 39, as a pure function over bytes.
  - Proved: every token is a non-empty run with no whitespace.
  - Proved: the tokens, concatenated, are the body without its whitespace.
  - Proved: splitting inverts any whitespace layout of a token list
    (`SplitLayout`) and the single-space join (`SplitJoin`).
- `RecordAssembly` (`record_assembly.dfy`): the assembly loop, as a method
  with a `while` loop and invariants.
  - It is proved against the recursive reference definition `RecordsOf`.
  - Proved about `RecordsOf`: the record count is `n / 9`; field `k` of
    record `j` is token `9*j + k`; every record has exactly the nine keys;
    assembly only appends; records and token strides are inverse.
  - An out-of-range read becomes an explicit error value. It happens exactly
    when `n % 9 != 0`, and the failing index is always `n`.
- `StackOutputs` (`stack_outputs.dfy`): `_get_stack_outputs`, as a recursive
  function over a given list of outputs.
- `HomesExample` (`homes_example.dfy`): the body
  `"100 120 80 5 3 2 10 0.5 1200"` worked through to its single record.
- `Wrappers` (`wrappers.dfy`): `Option` and a failure-compatible `Result`.

The code is followed where a plain description of the handler differs from
it:

- `response['Body'].read()` returns bytes, so tokens and record values are
  byte sequences (`seq<byte>`), not text. Whitespace is the ASCII whitespace
  that `bytes.split()` recognises: bytes 9 to 13 and 32.
- The file's `_get_stack_outputs` returns the matching value rather than
  printing it.
- A token count that is not a multiple of nine gives an `IndexError`, raised
  by the read `lines[i+k]`. The model states that error outright, rather than
  a truncating or rejecting policy.

## Model

| member | source | states |
|---|---|---|
| StackOutputs.LookupConnectionString | lambda_functions/s3_2_rds.py:12-15 | Returns nothing exactly when no output has key `JDBCAuroraConnectionString`. Otherwise it returns the value of an output with that key, and no earlier output has the key. |
| StackOutputs.LookupAppend | lambda_functions/s3_2_rds.py:13-15 | Once a list holds a match, appending outputs cannot change the result. A list with no match defers wholly to what follows it. |
| WhitespaceSplit.Split | lambda_functions/s3_2_rds.py:39 | Every token of the split is non-empty and free of ASCII whitespace. |
| WhitespaceSplit.SplitConcat | lambda_functions/s3_2_rds.py:39 | The tokens, concatenated, equal the body with every whitespace byte removed. No byte is lost or reordered. |
| WhitespaceSplit.SplitLayout | lambda_functions/s3_2_rds.py:39 | Lay tokens out with any non-empty whitespace between them and any whitespace at either end: splitting gives back exactly those tokens. So each token is a maximal non-whitespace run. |
| WhitespaceSplit.SplitJoin | lambda_functions/s3_2_rds.py:39 | Splitting the single-space join of a token list, after any leading whitespace, gives the list back. |
| RecordAssembly.RecordOf | lambda_functions/s3_2_rds.py:46-55 | A record built from nine tokens has exactly the nine column keys. Column `k`, in the order Sell..Taxes, holds token `k`, unconverted. |
| RecordAssembly.FieldsOf | lambda_functions/s3_2_rds.py:46-55 | Inverse of the record built at lines 46-55, which has no counterpart in the source. For a record with exactly the nine keys, it gives nine values in column order, and RecordOf rebuilds that same record from them. |
| RecordAssembly.RecordsOf | lambda_functions/s3_2_rds.py:43-58 | The reference regrouping has `n / 9` records, and each has exactly the nine keys. |
| RecordAssembly.Flatten | lambda_functions/s3_2_rds.py:43-58 | Inverse of the regrouping at lines 43-58, which has no counterpart in the source: records laid back out as tokens, nine per record. |
| RecordAssembly.RecordsOfField | lambda_functions/s3_2_rds.py:46-55 | For every record `j` and column position `k < 9`, the token index `9*j + k` is in range, and record `j`'s column `k` is that token. |
| RecordAssembly.RecordsOfAppend | lambda_functions/s3_2_rds.py:57 | Assembly only appends. The records of a stride-aligned prefix come first, unchanged, and the records of the rest follow in order. |
| RecordAssembly.RecordsOfNextStride | lambda_functions/s3_2_rds.py:44-58 | One more stride adds exactly one record, at the end: the record of that stride. |
| RecordAssembly.FlattenRecordsOf | lambda_functions/s3_2_rds.py:43-58 | When `n % 9 == 0`, the records hold every token exactly once and in order. |
| RecordAssembly.RecordsOfFlatten | lambda_functions/s3_2_rds.py:43-58 | Any list of nine-column records is rebuilt from its own tokens. |
| RecordAssembly.BuildRecord | lambda_functions/s3_2_rds.py:46-55 | The loop body at a stride start `i < n`. If `i + 9 <= n`, it returns the record of tokens `i..i+9`. Otherwise it fails with the out-of-range read of index `n`. |
| RecordAssembly.AssembleRecords | lambda_functions/s3_2_rds.py:43-58 | The loop keeps `i <= n`, `i % 9 == 0` and "records so far = reference regrouping of the first `i` tokens". It returns those records exactly when `n % 9 == 0`. Otherwise it gives the IndexError of index `n`. |
| RecordAssembly.ParseBody | lambda_functions/s3_2_rds.py:39-58 | From body to records: the body's tokens assembled. It succeeds exactly when the token count is a multiple of nine. |
| RecordAssembly.FlattenTokens | lambda_functions/s3_2_rds.py:46-55 | About the inverse of lines 46-55, not a source operation: if every record value is a token, so is every element of the flattened token list. |
| RecordAssembly.PayloadRoundTrip | lambda_functions/s3_2_rds.py:39-58 | Lay out the tokens of any list of nine-column records with any whitespace. The body splits back into exactly those tokens, their count is a multiple of nine, and they assemble back into exactly those records. |
| HomesExample.BodyTokens | lambda_functions/s3_2_rds.py:39 | The body `"100 120 80 5 3 2 10 0.5 1200"` splits into its nine tokens. |
| HomesExample.BodyRecord | lambda_functions/s3_2_rds.py:39-58 | That body assembles into exactly one record: `Sell = "100"`, `List = "120"`, and so on to `Taxes = "1200"`. |

## Left out

- The boto3 clients and calls (lines 8-10, 13, 31-36): the existence waiter, the bucket and object fetch, and `describe_stacks`. These are network I/O. The body bytes and the outputs list are inputs of the model.
- The `Stacks[0]` and `Outputs` indexing at line 13: it belongs to the `describe_stacks` response, which is not modelled.
- `urllib.parse.unquote_plus` on the event key (line 19): a library call. Its result does not choose the object that is parsed, because the fetch is hardcoded.
- The second `response['Body'].read()` (line 40): it is only printed.
- Every `print` (lines 6, 21-27, 30, 33, 37-38, 40, 56, 62-63) and the Lambda `context` fields: diagnostics only.
- The unused `jaydebeapi` import (line 4).
- The call to the undefined `println` (line 59). It always raises `NameError` after the loop, which the blanket handler swallows. The model returns the assembled records and leaves out this handoff.
- The blanket `except Exception` (lines 61-63). It turns every failure, including the modelled `IndexError`, into a printed message. The model stops at the `Result` the assembly returns.
- The key order of a record. A Python dict keeps insertion order, Sell first and Taxes last, and `print(record)` at line 56 shows it. A Dafny `map` has no order, so the column order is kept in `FieldNames` and not in the record value.
- The records built before an out-of-range read are discarded by the exception. The model's error value carries none of them, and the partly filled dictionary is not modelled.
- The secret-store helper and the printing variant of the stack lookup: they are in the second handler file, which is not part of this model.
