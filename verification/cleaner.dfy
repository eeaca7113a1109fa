/** The record cleaning of `process_reviewpulse_data`: reading the input as a
    JSON array or as JSON lines, then keeping only dict records with a usable
    `asin` and `reviewText`, projected onto three string fields. */
module Cleaner {
  import opened Wrappers
  import opened Text
  import opened Seqs
  import opened Json

  /** A cleaned review: the three fields the output file keeps. */
  datatype Record = Record(asin: string, reviewText: string, reviewTime: string)

  /** The string form of a field, stripped: `str(value).strip()`. */
  function FieldText(v: Value, repr: Value -> string): string {
    Strip(PyStr(v, repr))
  }

  /** One turn of the cleaning loop: None when the item is skipped, otherwise
      the projected record. */
  function CleanItem(item: Value, repr: Value -> string): (r: Option<Record>)
    ensures !item.Object? ==> r == None
    ensures item.Object? && (Get(item.fields, "asin") == Null || Get(item.fields, "reviewText") == Null) ==> r == None
    ensures r.Some? ==> r.value.asin != "" && r.value.reviewText != ""
  {
    if !item.Object? then None
    else
      var asin := Get(item.fields, "asin");
      var text := Get(item.fields, "reviewText");
      var time := Get(item.fields, "reviewTime");
      if asin == Null || text == Null then None
      else
        var a := FieldText(asin, repr);
        var t := FieldText(text, repr);
        var tm := if time == Null then "" else FieldText(time, repr);
        if a == "" || t == "" then None
        else Some(Record(a, t, tm))
  }

  /** The cleaning loop's step as a function value. */
  function Cleaning(repr: Value -> string): Value -> Option<Record> {
    item => CleanItem(item, repr)
  }

  /** The records the loop collects from `data`, in input order. */
  function Clean(data: seq<Value>, repr: Value -> string): (out: seq<Record>)
    ensures |out| <= |data|
  {
    FilterMap(data, Cleaning(repr))
  }

  /** The cleaning loop itself: walks `data` once, appending a record for
      every item that survives. */
  method ProcessRecords(data: seq<Value>, repr: Value -> string) returns (processed: seq<Record>)
    ensures processed == Clean(data, repr)
    ensures |processed| <= |data|
  {
    processed := [];
    var i := 0;
    while i < |data|
      invariant 0 <= i <= |data|
      invariant processed == Clean(data[..i], repr)
    {
      assert data[..i + 1][..i] == data[..i];
      var r := CleanItem(data[i], repr);
      if r.Some? {
        processed := processed + [r.value];
      }
      i := i + 1;
    }
    assert data[..i] == data;
  }

  /** An item is kept exactly when it is a dict whose `asin` and `reviewText`
      are present and not blank once stringified and stripped; the record
      then holds those stripped strings, and `reviewTime` stripped or `""`. */
  lemma CleanItemKept(item: Value, repr: Value -> string)
    ensures CleanItem(item, repr).Some? <==>
      && item.Object?
      && Get(item.fields, "asin") != Null
      && Get(item.fields, "reviewText") != Null
      && FieldText(Get(item.fields, "asin"), repr) != ""
      && FieldText(Get(item.fields, "reviewText"), repr) != ""
    ensures CleanItem(item, repr).Some? ==>
      && CleanItem(item, repr).value.asin == FieldText(Get(item.fields, "asin"), repr)
      && CleanItem(item, repr).value.reviewText == FieldText(Get(item.fields, "reviewText"), repr)
      && CleanItem(item, repr).value.reviewTime ==
           (if Get(item.fields, "reviewTime") == Null then "" else FieldText(Get(item.fields, "reviewTime"), repr))
  {
  }

  /** Every field of a cleaned record is whitespace-stripped, and the two
      required ones are not empty. */
  lemma CleanItemStripped(item: Value, repr: Value -> string)
    requires CleanItem(item, repr).Some?
    ensures var r := CleanItem(item, repr).value;
      && r.asin != "" && r.reviewText != ""
      && Trimmed(r.asin, IsPySpace) && Trimmed(r.reviewText, IsPySpace) && Trimmed(r.reviewTime, IsPySpace)
  {
    var f := item.fields;
    TrimSpec(PyStr(Get(f, "asin"), repr), IsPySpace);
    TrimSpec(PyStr(Get(f, "reviewText"), repr), IsPySpace);
    if Get(f, "reviewTime") != Null {
      TrimSpec(PyStr(Get(f, "reviewTime"), repr), IsPySpace);
    }
  }

  /** The cleaned list is a subsequence of the input: output record `k` comes
      from input item `ix[k]`, positions ascend, and every kept item (hence no
      non-dict) appears. */
  lemma CleanOrigins(data: seq<Value>, repr: Value -> string) returns (ix: seq<nat>)
    ensures |ix| == |Clean(data, repr)|
    ensures Ascending(ix, |data|)
    ensures forall k :: 0 <= k < |ix| ==> CleanItem(data[ix[k]], repr) == Some(Clean(data, repr)[k])
    ensures forall k :: 0 <= k < |ix| ==> data[ix[k]].Object?
    ensures forall i :: 0 <= i < |data| && CleanItem(data[i], repr).Some? ==> i in ix
  {
    ix := FilterMapOrigins(data, Cleaning(repr));
  }

  /** Cleaning `a + b` cleans `a` and then `b`: each item is judged on its own. */
  lemma CleanAppend(a: seq<Value>, b: seq<Value>, repr: Value -> string)
    ensures Clean(a + b, repr) == Clean(a, repr) + Clean(b, repr)
  {
    FilterMapAppend(a, b, Cleaning(repr));
  }

  /** Items that are not dicts contribute nothing. */
  lemma CleanSkipsNonDicts(data: seq<Value>, repr: Value -> string)
    requires forall i :: 0 <= i < |data| ==> !data[i].Object?
    ensures Clean(data, repr) == []
  {
    FilterMapCount(data, Cleaning(repr));
    assert CountKept(data, Cleaning(repr)) == 0 by {
      NoneKept(data, Cleaning(repr));
    }
  }

  /** No kept element means no output element. */
  lemma {:induction false} NoneKept<T, U>(s: seq<T>, f: T -> Option<U>)
    requires forall i :: 0 <= i < |s| ==> f(s[i]).None?
    ensures CountKept(s, f) == 0
    decreases |s|
  {
    if |s| > 0 {
      NoneKept(s[..|s| - 1], f);
    }
  }

  /** The output file's object for a record: exactly the keys `asin`,
      `reviewText` and `reviewTime`. */
  function ToJson(r: Record): (v: Value)
    ensures v.Object? && v.fields.Keys == {"asin", "reviewText", "reviewTime"}
  {
    Object(map["asin" := Str(r.asin), "reviewText" := Str(r.reviewText), "reviewTime" := Str(r.reviewTime)])
  }

  /** The object written for a record with stripped fields, required ones
      non-empty, cleans back to that record. */
  lemma RecleanFields(r: Record, repr: Value -> string)
    requires r.asin != "" && r.reviewText != ""
    requires Trimmed(r.asin, IsPySpace) && Trimmed(r.reviewText, IsPySpace) && Trimmed(r.reviewTime, IsPySpace)
    ensures CleanItem(ToJson(r), repr) == Some(r)
  {
    var f := ToJson(r).fields;
    assert "asin" != "reviewText" && "asin" != "reviewTime" && "reviewText" != "reviewTime" by {
      assert |"asin"| == 4 && |"reviewText"| == 10;
      assert "reviewText"[7] != "reviewTime"[7];
    }
    assert Get(f, "asin") == Str(r.asin);
    assert Get(f, "reviewText") == Str(r.reviewText);
    assert Get(f, "reviewTime") == Str(r.reviewTime);
    TrimOfTrimmed(r.asin, IsPySpace);
    TrimOfTrimmed(r.reviewText, IsPySpace);
    TrimOfTrimmed(r.reviewTime, IsPySpace);
  }

  /** A cleaned record survives cleaning again unchanged. */
  lemma RecleanRecord(item: Value, repr: Value -> string)
    requires CleanItem(item, repr).Some?
    ensures CleanItem(ToJson(CleanItem(item, repr).value), repr) == CleanItem(item, repr)
  {
    CleanItemStripped(item, repr);
    RecleanFields(CleanItem(item, repr).value, repr);
  }

  /** A record as the cleaner leaves it: required fields non-empty, every
      field stripped. */
  predicate Tidy(r: Record) {
    && r.asin != "" && r.reviewText != ""
    && Trimmed(r.asin, IsPySpace) && Trimmed(r.reviewText, IsPySpace) && Trimmed(r.reviewTime, IsPySpace)
  }

  /** The list `json.dump` writes: one object per record, in order. */
  function Written(out: seq<Record>): (vs: seq<Value>)
    ensures |vs| == |out|
    ensures forall k :: 0 <= k < |out| ==> vs[k] == ToJson(out[k])
    decreases |out|
  {
    if |out| == 0 then [] else Written(out[..|out| - 1]) + [ToJson(out[|out| - 1])]
  }

  /** Every record the cleaner produces is tidy. */
  lemma CleanTidy(data: seq<Value>, repr: Value -> string)
    ensures forall k :: 0 <= k < |Clean(data, repr)| ==> Tidy(Clean(data, repr)[k])
  {
    var ix := CleanOrigins(data, repr);
    forall k | 0 <= k < |Clean(data, repr)|
      ensures Tidy(Clean(data, repr)[k])
    {
      CleanItemStripped(data[ix[k]], repr);
    }
  }

  /** Tidy records written out and cleaned again come back unchanged. */
  lemma {:induction false} RecleanWritten(out: seq<Record>, repr: Value -> string)
    requires forall k :: 0 <= k < |out| ==> Tidy(out[k])
    ensures Clean(Written(out), repr) == out
    decreases |out|
  {
    if |out| > 0 {
      var n := |out| - 1;
      RecleanWritten(out[..n], repr);
      RecleanFields(out[n], repr);
      var w := Written(out);
      assert w[..n] == Written(out[..n]);
      assert out == out[..n] + [out[n]];
    }
  }

  /** Cleaning is idempotent: feeding the written output back in yields the
      same records. */
  lemma CleanIdempotent(data: seq<Value>, repr: Value -> string)
    ensures Clean(Written(Clean(data, repr)), repr) == Clean(data, repr)
  {
    CleanTidy(data, repr);
    RecleanWritten(Clean(data, repr), repr);
  }

  // ---------------------------------------------------------------------------
  // Reading the input
  // ---------------------------------------------------------------------------

  /** One line of a JSON-lines file: stripped; blank lines are skipped and so
      are lines `decode` rejects. */
  function LineReader(decode: string -> Option<Value>): string -> Option<Value> {
    line => if Strip(line) == "" then None else decode(Strip(line))
  }

  /** The items of a JSON-lines file: one per non-blank line that decodes, in
      line order. */
  function JsonLines(content: string, decode: string -> Option<Value>): (items: seq<Value>)
    ensures |items| <= |Split(content, '\n')|
  {
    FilterMap(Split(content, '\n'), LineReader(decode))
  }

  /** A first line, then the rest: the first line contributes its decoded
      value when it is not blank and decodes, and nothing otherwise. */
  lemma JsonLinesFirst(line: string, rest: string, decode: string -> Option<Value>)
    requires '\n' !in line
    ensures Strip(line) == "" ==> JsonLines(line + "\n" + rest, decode) == JsonLines(rest, decode)
    ensures Strip(line) != "" && decode(Strip(line)).None? ==>
      JsonLines(line + "\n" + rest, decode) == JsonLines(rest, decode)
    ensures Strip(line) != "" && decode(Strip(line)).Some? ==>
      JsonLines(line + "\n" + rest, decode) == [decode(Strip(line)).value] + JsonLines(rest, decode)
  {
    SplitPrefix(line, rest, '\n');
    assert line + "\n" + rest == line + ['\n'] + rest;
    FilterMapAppend([line], Split(rest, '\n'), LineReader(decode));
    assert [line][..0] == [];
  }

  /** Every item comes from its own line, lines in order, and every non-blank
      line that decodes contributes. */
  lemma JsonLinesOrigins(content: string, decode: string -> Option<Value>) returns (ix: seq<nat>)
    ensures |ix| == |JsonLines(content, decode)|
    ensures Ascending(ix, |Split(content, '\n')|)
    ensures forall k :: 0 <= k < |ix| ==>
      var line := Strip(Split(content, '\n')[ix[k]]);
      line != "" && decode(line) == Some(JsonLines(content, decode)[k])
    ensures forall i :: 0 <= i < |Split(content, '\n')| ==>
      var line := Strip(Split(content, '\n')[i]);
      line != "" && decode(line).Some? ==> i in ix
  {
    ix := FilterMapOrigins(Split(content, '\n'), LineReader(decode));
  }

  /** How the input is read: after stripping the whole file, text between
      `[` and `]` must decode as one JSON array (failure aborts the run);
      anything else is read as JSON lines. */
  function Load(content: string, decode: string -> Option<Value>): (data: Option<seq<Value>>)
    ensures var c := Strip(content);
      !(|c| > 0 && c[0] == '[' && c[|c| - 1] == ']') ==> data == Some(JsonLines(c, decode))
    ensures var c := Strip(content);
      |c| > 0 && c[0] == '[' && c[|c| - 1] == ']' ==>
        && (data.Some? <==> decode(c).Some? && decode(c).value.Array?)
        && (data.Some? ==> data.value == decode(c).value.items)
  {
    var c := Strip(content);
    if |c| > 0 && c[0] == '[' && c[|c| - 1] == ']' then
      match decode(c)
      case Some(Array(items)) => Some(items)
      case _ => None
    else Some(JsonLines(c, decode))
  }

  /** The whole pipeline up to writing: read, then clean.  None when reading
      the array form fails. */
  function Process(content: string, decode: string -> Option<Value>, repr: Value -> string): (out: Option<seq<Record>>)
    ensures Load(content, decode).Some? <==> out.Some?
    ensures out.Some? ==> |out.value| <= |Load(content, decode).value|
  {
    match Load(content, decode)
    case None => None
    case Some(data) => Some(Clean(data, repr))
  }
}
