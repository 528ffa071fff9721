/** Batch runs (util/batch.py): the zero-padded names under which
    `batch_generate` stores its datasets, and the collection of evaluation
    records by `batch_load_eval`, which tags each record with its dataset
    directory and with an identifier parsed from the file name.  The
    filesystem is given as a listing; generating and reading a dataset are
    functions given as parameters. */
module Batch {

  // ---------------------------------------------------------------- Decimal

  predicate IsDigit(ch: char) {
    '0' <= ch <= '9'
  }

  predicate AllDigits(s: string) {
    forall k :: 0 <= k < |s| ==> IsDigit(s[k])
  }

  function DigitChar(d: nat): (ch: char)
    requires d < 10
    ensures IsDigit(ch) && ch as int - '0' as int == d
  {
    ('0' as int + d) as char
  }

  /** Python `str` of a non-negative int: its decimal digits, no leading
      zero. */
  function NatToString(n: nat): (s: string)
    ensures |s| >= 1 && AllDigits(s)
    ensures |s| > 1 ==> s[0] != '0'
  {
    if n < 10 then [DigitChar(n)] else NatToString(n / 10) + [DigitChar(n % 10)]
  }

  /** Python `str` of any int: a minus sign before the digits of a negative
      number. */
  function IntToString(i: int): (s: string)
    ensures i >= 0 ==> s == NatToString(i)
    ensures i < 0 ==> s == "-" + NatToString(-i)
  {
    if i < 0 then "-" + NatToString(-i) else NatToString(i)
  }

  /** The number a string of digits denotes, leading zeros included. */
  function DecimalValue(s: string): nat
    requires AllDigits(s)
  {
    if s == [] then 0
    else DecimalValue(s[..|s| - 1]) * 10 + (s[|s| - 1] as int - '0' as int)
  }

  /** Reading back the digits of `str(n)` gives `n`. */
  lemma {:induction false} DecimalRoundTrip(n: nat)
    ensures DecimalValue(NatToString(n)) == n
  {
    if n >= 10 {
      DecimalRoundTrip(n / 10);
      var s := NatToString(n);
      assert s[..|s| - 1] == NatToString(n / 10);
    }
  }

  /** `str(i)` reads back as `i`: a non-negative number is its digits, a
      negative one is a minus sign followed by the digits of its magnitude,
      and only a negative number starts with '-'. */
  lemma IntToStringValue(i: int)
    ensures |IntToString(i)| >= 1 && (IntToString(i)[0] == '-' <==> i < 0)
    ensures i >= 0 ==> AllDigits(IntToString(i)) && DecimalValue(IntToString(i)) == i
    ensures i < 0 ==> var s := IntToString(i);
              |s| >= 2 && AllDigits(s[1..]) && DecimalValue(s[1..]) == -i
  {
    if i < 0 {
      DecimalRoundTrip(-i);
      assert IntToString(i)[1..] == NatToString(-i);
    } else {
      DecimalRoundTrip(i);
      assert IsDigit(IntToString(i)[0]);
    }
  }

  /** Leading zeros do not change the number. */
  lemma {:induction false} LeadingZeros(zeros: nat, s: string)
    requires AllDigits(s)
    ensures AllDigits(Zeros(zeros) + s)
    ensures DecimalValue(Zeros(zeros) + s) == DecimalValue(s)
    decreases zeros, |s|
  {
    if zeros > 0 {
      LeadingZeros(zeros - 1, s);
      assert Zeros(zeros) + s == ['0'] + (Zeros(zeros - 1) + s);
      LeadingZero(Zeros(zeros - 1) + s);
    } else {
      assert Zeros(zeros) + s == s;
    }
  }

  lemma {:induction false} LeadingZero(s: string)
    requires AllDigits(s)
    ensures AllDigits(['0'] + s)
    ensures DecimalValue(['0'] + s) == DecimalValue(s)
  {
    var t := ['0'] + s;
    if s != [] {
      LeadingZero(s[..|s| - 1]);
      assert t[..|t| - 1] == ['0'] + s[..|s| - 1];
    }
  }

  /** A larger number never has fewer digits. */
  lemma {:induction false} DigitsMonotone(i: nat, j: nat)
    requires i <= j
    ensures |NatToString(i)| <= |NatToString(j)|
  {
    if i >= 10 {
      DigitsMonotone(i / 10, j / 10);
    }
  }

  // ---------------------------------------------------------------- Names

  function Zeros(n: nat): (z: string)
    ensures |z| == n && forall k :: 0 <= k < n ==> z[k] == '0'
  {
    seq(n, _ => '0')
  }

  /** Format spec `0{width}` of a non-negative int: its digits, padded on the
      left with '0' up to `width` characters. */
  function ZeroPad(digits: string, width: nat): (r: string)
    ensures |r| == if |digits| < width then width else |digits|
    ensures r[|r| - |digits|..] == digits
    ensures forall k :: 0 <= k < |r| - |digits| ==> r[k] == '0'
  {
    if |digits| < width then Zeros(width - |digits|) + digits else digits
  }

  /** Line 28: the width of the names of a batch of `num` datasets, the
      length of `str(num - 1)`. */
  function Padding(num: int): (w: nat)
    ensures num >= 1 ==> w == |NatToString(num - 1)|
    ensures num < 1 ==> w == 1 + |NatToString(1 - num)|
  {
    |IntToString(num - 1)|
  }

  /** Line 32: the name of dataset `i`. */
  function DatasetName(i: nat, width: nat): (r: string)
    ensures AllDigits(r) && |r| >= 1 && |r| >= width
    ensures |r| > width ==> r == NatToString(i)
  {
    ZeroPad(NatToString(i), width)
  }

  /** A dataset name reads back as its index. */
  lemma DatasetNameValue(i: nat, width: nat)
    ensures AllDigits(DatasetName(i, width))
    ensures DecimalValue(DatasetName(i, width)) == i
  {
    var digits := NatToString(i);
    DecimalRoundTrip(i);
    if |digits| < width {
      LeadingZeros(width - |digits|, digits);
    }
  }

  /** In a batch of `num` datasets every name is exactly `Padding(num)`
      characters long, and different datasets get different names. */
  lemma NamesDistinctSameLength(num: int, i: nat, j: nat)
    requires i < num && j < num
    ensures |DatasetName(i, Padding(num))| == Padding(num)
    ensures i != j ==> DatasetName(i, Padding(num)) != DatasetName(j, Padding(num))
  {
    var w := Padding(num);
    DigitsMonotone(i, num - 1);
    assert |NatToString(i)| <= w;
    if i != j {
      DatasetNameValue(i, w);
      DatasetNameValue(j, w);
      assert DecimalValue(DatasetName(i, w)) != DecimalValue(DatasetName(j, w));
    }
  }

  /** `batch_generate` (lines 12-35): one dataset per index, in index
      order, each generated under its padded name.  `runGenerate` is
      `run_generate` with the builder and store path fixed. */
  method BatchGenerate<R>(num: int, runGenerate: string -> R) returns (res: seq<R>)
    ensures |res| == if num > 0 then num else 0
    ensures forall i :: 0 <= i < |res| ==> res[i] == runGenerate(DatasetName(i, Padding(num)))
  {
    res := [];
    var padding := Padding(num);
    var count: nat := if num > 0 then num else 0;
    var i: nat := 0;
    while i < count
      invariant i <= count && |res| == i
      invariant forall k {:trigger res[k]} :: 0 <= k < i ==> res[k] == runGenerate(DatasetName(k, padding))
    {
      var next := runGenerate(DatasetName(i, padding));
      assert (res + [next])[i] == next;
      res := res + [next];
      i := i + 1;
    }
  }

  // ---------------------------------------------------------------- Identifiers

  /** Python `s.split(c)` for a one-character separator. */
  function Split(s: string, c: char): (parts: seq<string>)
    ensures |parts| >= 1
    ensures c in s <==> |parts| >= 2
    ensures forall k :: 0 <= k < |parts| ==> c !in parts[k] && |parts[k]| <= |s|
    ensures forall k :: 1 <= k < |parts| ==> |parts[k]| < |s|
  {
    if s == [] then [""]
    else
      var rest := Split(s[1..], c);
      if s[0] == c then [""] + rest else [[s[0]] + rest[0]] + rest[1..]
  }

  /** Joining with the separator, Python's `c.join(parts)`. */
  function Join(parts: seq<string>, c: char): string
    requires |parts| >= 1
  {
    if |parts| == 1 then parts[0] else parts[0] + [c] + Join(parts[1..], c)
  }

  /** `split` cuts at every separator and nowhere else: joining the parts
      gives the string back, and no part holds a separator. */
  lemma {:induction false} SplitJoin(s: string, c: char)
    ensures Join(Split(s, c), c) == s
    ensures forall k :: 0 <= k < |Split(s, c)| ==> c !in Split(s, c)[k]
  {
    if s != [] {
      SplitJoin(s[1..], c);
      var rest := Split(s[1..], c);
      assert s == [s[0]] + s[1..];
      if s[0] != c {
        assert Split(s, c) == [[s[0]] + rest[0]] + rest[1..];
        JoinExtendFirst(s[0], rest, c);
      } else {
        assert Split(s, c) == [""] + rest;
        assert ([""] + rest)[1..] == rest;
      }
    }
  }

  /** Prepending a character to the first part prepends it to the join. */
  lemma JoinExtendFirst(ch: char, parts: seq<string>, c: char)
    requires |parts| >= 1
    ensures Join([[ch] + parts[0]] + parts[1..], c) == [ch] + Join(parts, c)
  {
    var longer := [[ch] + parts[0]] + parts[1..];
    if |parts| > 1 {
      assert longer[1..] == parts[1..];
      assert ([ch] + parts[0]) + [c] + Join(parts[1..], c) == [ch] + (parts[0] + [c] + Join(parts[1..], c));
    }
  }

  /** The text before the first `c`, or all of `s` when there is none. */
  function Before(s: string, c: char): (r: string)
    ensures r <= s && c !in r
    ensures |r| < |s| ==> s[|r|] == c
  {
    if s == [] || s[0] == c then [] else [s[0]] + Before(s[1..], c)
  }

  /** The first part of a split is the text before the first separator. */
  lemma {:induction false} SplitHead(s: string, c: char)
    ensures Split(s, c)[0] == Before(s, c)
  {
    if s != [] && s[0] != c {
      SplitHead(s[1..], c);
    }
  }

  /** Splitting after a separator-free prefix and its separator. */
  lemma {:induction false} SplitAfterFirst(a: string, c: char, b: string)
    requires c !in a
    ensures Split(a + [c] + b, c) == [a] + Split(b, c)
  {
    if a == [] {
      assert a + [c] + b == [c] + b;
      assert ([c] + b)[1..] == b;
    } else {
      SplitAfterFirst(a[1..], c, b);
      assert (a + [c] + b)[1..] == a[1..] + [c] + b;
      assert [a[0]] + a[1..] == a;
    }
  }

  /** Lines 88-89: the identifier of an evaluation file name. */
  function Identifier(name: string): (r: string)
    ensures '_' !in r && '.' !in r
    ensures '_' in name ==> |r| < |name|
  {
    if '_' in name then
      var part := Split(name, '_')[1];
      SplitHead(part, '.');
      Split(part, '.')[0]
    else ""
  }

  /** The identifier is the text after the first '_', up to the next '_'
      or the end, and cut at the first '.'. */
  lemma IdentifierBetween(a: string, b: string)
    requires '_' !in a
    ensures Identifier(a + "_" + b) == Before(Before(b, '_'), '.')
  {
    var name := a + "_" + b;
    assert '_' in name by { assert name[|a|] == '_'; }
    SplitAfterFirst(a, '_', b);
    SplitHead(b, '_');
    SplitHead(Before(b, '_'), '.');
  }

  /** A name without '_' has the empty identifier. */
  lemma IdentifierNone(name: string)
    requires '_' !in name
    ensures Identifier(name) == ""
  {
  }

  // ---------------------------------------------------------------- Loading

  datatype Json =
    | JNull
    | JBool(b: bool)
    | JNumber(r: real)
    | JString(s: string)
    | JArray(items: seq<Json>)
    | JObject(fields: map<string, Json>)

  /** An evaluation file holds one JSON object. */
  type Record = map<string, Json>

  datatype File = File(name: string, content: Record)

  /** An entry of the store directory; `files` lists what scanning a
      directory entry yields. */
  datatype Entry = Entry(name: string, isDir: bool, files: seq<File>)

  /** Line 81: only files whose name starts with "eval" are loaded. */
  predicate IsEvalFile(name: string) {
    "eval" <= name
  }

  /** Lines 87-89: the record of file `fileName` in directory `dirName`,
      with the directory as its dataset and the parsed identifier. */
  function Tag(r: Record, dirName: string, fileName: string): (t: Record)
    ensures t.Keys == r.Keys + {"dataset", "identifier"}
    ensures t["dataset"] == JString(dirName)
    ensures t["identifier"] == JString(Identifier(fileName))
    ensures forall k :: k in r && k != "dataset" && k != "identifier" ==> t[k] == r[k]
  {
    r["dataset" := JString(dirName)]["identifier" := JString(Identifier(fileName))]
  }

  /** The records loaded from the files of one directory, in order. */
  function FileRecords(dirName: string, files: seq<File>): seq<Record> {
    if files == [] then []
    else
      var f := files[|files| - 1];
      FileRecords(dirName, files[..|files| - 1])
        + (if IsEvalFile(f.name) then [Tag(f.content, dirName, f.name)] else [])
  }

  function EntryRecords(e: Entry): seq<Record> {
    if e.isDir then FileRecords(e.name, e.files) else []
  }

  /** The records loaded from the whole listing, in order. */
  function EvalRecords(entries: seq<Entry>): seq<Record> {
    if entries == [] then []
    else EvalRecords(entries[..|entries| - 1]) + EntryRecords(entries[|entries| - 1])
  }

  /** `r` is the tagged record of an evaluation file of a directory. */
  ghost predicate LoadedFrom(r: Record, entries: seq<Entry>) {
    exists e, f :: e in entries && f in e.files && e.isDir && IsEvalFile(f.name)
                   && r == Tag(f.content, e.name, f.name)
  }

  lemma {:induction false} FileRecordsSources(dirName: string, files: seq<File>, r: Record)
    ensures r in FileRecords(dirName, files) <==>
      exists f :: f in files && IsEvalFile(f.name) && r == Tag(f.content, dirName, f.name)
  {
    if files != [] {
      var init := files[..|files| - 1];
      var f := files[|files| - 1];
      FileRecordsSources(dirName, init, r);
      assert files == init + [f];
      if exists g :: g in files && IsEvalFile(g.name) && r == Tag(g.content, dirName, g.name) {
        var g :| g in files && IsEvalFile(g.name) && r == Tag(g.content, dirName, g.name);
        if g != f {
          assert g in init;
        }
      }
    }
  }

  /** Exactly the evaluation files of directories are loaded: a record is
      loaded precisely when it is the tagged content of such a file. */
  lemma {:induction false} EvalRecordsSources(entries: seq<Entry>, r: Record)
    ensures r in EvalRecords(entries) <==> LoadedFrom(r, entries)
  {
    if entries != [] {
      var init := entries[..|entries| - 1];
      var e := entries[|entries| - 1];
      EvalRecordsSources(init, r);
      FileRecordsSources(e.name, e.files, r);
      assert entries == init + [e];
      if r in EvalRecords(entries) {
        if r in EvalRecords(init) {
          var d, f :| d in init && f in d.files && d.isDir && IsEvalFile(f.name)
                      && r == Tag(f.content, d.name, f.name);
          assert d in entries;
        } else {
          var f :| f in e.files && IsEvalFile(f.name) && r == Tag(f.content, e.name, f.name);
          assert e in entries;
        }
      }
      if LoadedFrom(r, entries) {
        var d, f :| d in entries && f in d.files && d.isDir && IsEvalFile(f.name)
                    && r == Tag(f.content, d.name, f.name);
        if d != e {
          assert d in init;
          assert LoadedFrom(r, init);
        }
      }
    }
  }

  /** One more file appends its record when it is an evaluation file. */
  lemma FileRecordsSnoc(dirName: string, files: seq<File>, j: nat)
    requires j < |files|
    ensures FileRecords(dirName, files[..j + 1]) == FileRecords(dirName, files[..j])
      + (if IsEvalFile(files[j].name) then [Tag(files[j].content, dirName, files[j].name)] else [])
  {
    assert files[..j + 1][..j] == files[..j];
  }

  /** One more entry appends the records of its evaluation files. */
  lemma EvalRecordsSnoc(entries: seq<Entry>, i: nat)
    requires i < |entries|
    ensures EvalRecords(entries[..i + 1]) == EvalRecords(entries[..i]) + EntryRecords(entries[i])
  {
    assert entries[..i + 1][..i] == entries[..i];
  }

  /** `batch_load_eval` (lines 69-93) up to the final data frame: scan the
      directories, and in each load every evaluation file in order. */
  method BatchLoadEval(entries: seq<Entry>) returns (data: seq<Record>)
    ensures data == EvalRecords(entries)
  {
    data := [];
    var i := 0;
    while i < |entries|
      invariant i <= |entries|
      invariant data == EvalRecords(entries[..i])
    {
      var e := entries[i];
      EvalRecordsSnoc(entries, i);
      if e.isDir {
        var j := 0;
        while j < |e.files|
          invariant j <= |e.files|
          invariant data == EvalRecords(entries[..i]) + FileRecords(e.name, e.files[..j])
        {
          var f := e.files[j];
          FileRecordsSnoc(e.name, e.files, j);
          if IsEvalFile(f.name) {
            data := data + [Tag(f.content, e.name, f.name)];
          }
          j := j + 1;
        }
        assert e.files[..j] == e.files;
      }
      i := i + 1;
    }
    assert entries[..i] == entries;
  }
}
