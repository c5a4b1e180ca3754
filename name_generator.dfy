/** Random citizen names (Assets/Scripts/Utility/NameGenerator.cs): the
    reader of the first-name table, the weighted choice of a first name, the
    line split of the name lists and the age brackets. The random numbers are
    parameters. */
module NameGenerator {
  import opened Wrappers
  import opened CSharpInt
  import opened DecimalText
  import opened Texts

  /** An entry of the first-name table: the name and how often it occurs. */
  datatype FirstNameInfo = FirstNameInfo(name: string, occurrences: int)

  /** The two tables and their totals. */
  datatype FirstNames = FirstNames(male: seq<FirstNameInfo>, female: seq<FirstNameInfo>,
                                   totalMale: int, totalFemale: int)

  /** A record of the table file: name, gender character, count. */
  datatype NameRecord = NameRecord(name: string, gender: char, count: nat)

  // ---------------------------------------------------------------------------
  // The reader (`LoadFirstNames`), over the bytes of the file, one character
  // per byte
  // ---------------------------------------------------------------------------

  /** The name loop: characters up to the next ',' (the file end throws). */
  function NameFrom(bytes: string, i: nat, name: string): (r: Option<(string, nat)>)
    ensures r.Some? ==> i <= r.value.1 < |bytes| && bytes[r.value.1] == ','
    decreases |bytes| - i
  {
    if i >= |bytes| then None
    else if bytes[i] == ',' then Some((name, i))
    else NameFrom(bytes, i + 1, name + [bytes[i]])
  }

  /** The count loop from index `k`, with the text read so far: it appends
      the character, moves on, and stops at "\r\n" or '\n'; reading past the
      end throws. The result is the text and the index the loop leaves. */
  function CountFrom(bytes: string, k: nat, text: string): (r: Option<(string, nat)>)
    ensures r.Some? ==> k <= r.value.1
    decreases |bytes| - k
  {
    if k >= |bytes| then Some((text, k))
    else
      var text' := text + [bytes[k]];
      if k + 1 >= |bytes| then None
      else if bytes[k + 1] == '\r' then
        if k + 2 >= |bytes| then None
        else if bytes[k + 2] == '\n' then Some((text', k + 2))
        else CountFrom(bytes, k + 1, text')
      else if bytes[k + 1] == '\n' then Some((text', k + 1))
      else CountFrom(bytes, k + 1, text')
  }

  /** `int.TryParse` leaves 0 when it fails. */
  function ParsedCount(text: string): int
  {
    match TryParseInt(text) case Some(n) => n case None => 0
  }

  /** One record from index `i`: the entry, whether it is male, and the index
      of the next record. */
  function ReadRecord(bytes: string, i: nat): (r: Option<(FirstNameInfo, bool, nat)>)
    ensures r.Some? ==> r.value.2 > i
  {
    match NameFrom(bytes, i, [])
    case None => None
    case Some((name, j)) =>
      if j + 1 >= |bytes| then None
      else
        match CountFrom(bytes, j + 3, [])
        case None => None
        case Some((text, k)) => Some((FirstNameInfo(name, ParsedCount(text)), bytes[j + 1] == 'M', k + 1))
  }

  /** All records from index `i` on, added to `acc`. */
  function LoadFrom(bytes: string, i: nat, acc: FirstNames): Option<FirstNames>
    decreases |bytes| - i
  {
    if i >= |bytes| then Some(acc)
    else match ReadRecord(bytes, i)
      case None => None
      case Some((info, male, next)) =>
        LoadFrom(bytes, next, Add(acc, info, male))
  }

  /** An entry goes to its gender's table and total. */
  function Add(acc: FirstNames, info: FirstNameInfo, male: bool): (r: FirstNames)
    ensures male ==> r == acc.(male := acc.male + [info], totalMale := acc.totalMale + info.occurrences)
    ensures !male ==> r == acc.(female := acc.female + [info], totalFemale := acc.totalFemale + info.occurrences)
  {
    if male then acc.(male := acc.male + [info], totalMale := acc.totalMale + info.occurrences)
    else acc.(female := acc.female + [info], totalFemale := acc.totalFemale + info.occurrences)
  }

  const NoNames := FirstNames([], [], 0, 0)

  /** `LoadFirstNames`: the tables, or None where the reader runs past the end
      of the file (an `IndexOutOfRangeException`). The body of its loop is
      `ReadEntry`, split into the name loop and the count loop. */
  method LoadFirstNames(bytes: string) returns (r: Option<FirstNames>)
    ensures r == LoadFrom(bytes, 0, NoNames)
  {
    var acc := NoNames;
    var i := 0;
    while i < |bytes|
      invariant LoadFrom(bytes, 0, NoNames) == LoadFrom(bytes, i, acc)
      decreases |bytes| - i
    {
      var entry := ReadEntry(bytes, i);
      if entry.None? {
        return None;
      }
      var (info, male, next) := entry.value;
      acc := Add(acc, info, male);
      i := next;
    }
    r := Some(acc);
  }

  /** One pass of the loop body: a record from index `i`. */
  method ReadEntry(bytes: string, i: nat) returns (r: Option<(FirstNameInfo, bool, nat)>)
    ensures r == ReadRecord(bytes, i)
  {
    var nameEnd := ReadName(bytes, i);
    if nameEnd.None? {
      return None;
    }
    var name := nameEnd.value.0;
    var j := nameEnd.value.1 + 1;
    if j >= |bytes| {
      return None;
    }
    var male := bytes[j] == 'M';
    var countEnd := ReadCount(bytes, j + 2);
    if countEnd.None? {
      return None;
    }
    r := Some((FirstNameInfo(name, ParsedCount(countEnd.value.0)), male, countEnd.value.1 + 1));
  }

  /** `while (bytes[i] != ',')`: the name. */
  method ReadName(bytes: string, start: nat) returns (r: Option<(string, nat)>)
    ensures r == NameFrom(bytes, start, [])
  {
    var name: string := [];
    var i := start;
    while true
      invariant start <= i
      invariant NameFrom(bytes, start, []) == NameFrom(bytes, i, name)
      decreases |bytes| - i
    {
      if i >= |bytes| {
        return None;
      }
      if bytes[i] == ',' {
        return Some((name, i));
      }
      name := name + [bytes[i]];
      i := i + 1;
    }
  }

  /** The count loop: the count's text and the index it leaves. */
  method ReadCount(bytes: string, start: nat) returns (r: Option<(string, nat)>)
    ensures r == CountFrom(bytes, start, [])
  {
    var occurrenceStr: string := [];
    var i := start;
    while i < |bytes|
      invariant start <= i
      invariant CountFrom(bytes, start, []) == CountFrom(bytes, i, occurrenceStr)
      decreases |bytes| - i
    {
      occurrenceStr := occurrenceStr + [bytes[i]];
      i := i + 1;
      if i >= |bytes| {
        return None;
      }
      if bytes[i] == '\r' {
        if i + 1 >= |bytes| {
          return None;
        }
        if bytes[i + 1] == '\n' {
          return Some((occurrenceStr, i + 1));
        }
      } else if bytes[i] == '\n' {
        return Some((occurrenceStr, i));
      }
    }
    r := Some((occurrenceStr, i));
  }

  // ---------------------------------------------------------------------------
  // The file format the reader expects
  // ---------------------------------------------------------------------------

  /** A record as a line of the file, ended by "\r\n" or '\n'. */
  function RecordText(r: NameRecord, crlf: bool): string
  {
    Line(r.name, r.gender, Digits(r.count), crlf)
  }

  /** A line of the file: name, gender and count text between commas. */
  function Line(name: string, gender: char, d: string, crlf: bool): string
  {
    name + [',', gender, ','] + d + (if crlf then ['\r', '\n'] else ['\n'])
  }

  function FileText(rs: seq<NameRecord>, crlf: bool): string
  {
    if rs == [] then [] else FileText(rs[..|rs| - 1], crlf) + RecordText(rs[|rs| - 1], crlf)
  }

  /** What the reader should make of the records. */
  function Tables(rs: seq<NameRecord>): FirstNames
  {
    if rs == [] then NoNames
    else
      var r := rs[|rs| - 1];
      Add(Tables(rs[..|rs| - 1]), FirstNameInfo(r.name, r.count), r.gender == 'M')
  }

  predicate NoComma(w: string)
  {
    forall k :: 0 <= k < |w| ==> w[k] != ','
  }

  /** A record the reader can read back: no ',' in the name, and a count that
      `int.TryParse` accepts. */
  predicate Readable(r: NameRecord)
  {
    NoComma(r.name) && r.count < TwoTo31
  }

  lemma {:induction false} NameFromWord(bytes: string, i: nat, name: string, w: string)
    requires i + |w| < |bytes| && bytes[i..i + |w|] == w && bytes[i + |w|] == ',' && NoComma(w)
    ensures NameFrom(bytes, i, name) == Some((name + w, i + |w|))
    decreases |w|
  {
    if w == [] {
      assert name + w == name;
    } else {
      assert bytes[i] == w[0];
      assert bytes[i + 1..i + 1 + |w[1..]|] == w[1..];
      NameFromWord(bytes, i + 1, name + [w[0]], w[1..]);
      assert name + [w[0]] + w[1..] == name + w;
    }
  }

  /** The count loop over digits and a line end. */
  lemma {:induction false} CountFromDigits(bytes: string, k: nat, text: string, d: string)
    requires IsDigits(d) && k + |d| < |bytes| && bytes[k..k + |d|] == d
    requires bytes[k + |d|] == '\n' || (bytes[k + |d|] == '\r' && k + |d| + 1 < |bytes| && bytes[k + |d| + 1] == '\n')
    ensures CountFrom(bytes, k, text) == Some((text + d, k + |d| + if bytes[k + |d|] == '\r' then 1 else 0))
    decreases |d|
  {
    assert bytes[k] == d[0];
    if |d| > 1 {
      assert bytes[k + 1] == d[1];
      assert bytes[k + 1..k + 1 + |d[1..]|] == d[1..];
      CountFromDigits(bytes, k + 1, text + [d[0]], d[1..]);
      assert text + [d[0]] + d[1..] == text + d;
    } else {
      assert text + [d[0]] == text + d;
    }
  }

  /** A piece of a text found in the bytes. */
  lemma Within(bytes: string, i: nat, t: string, a: nat, b: nat)
    requires i + |t| <= |bytes| && bytes[i..i + |t|] == t && a <= b <= |t|
    ensures bytes[i + a..i + b] == t[a..b]
    ensures a < |t| ==> bytes[i + a] == t[a]
  {
    forall k | 0 <= k < b - a ensures bytes[i + a..i + b][k] == t[a..b][k] {
      assert bytes[i + a + k] == bytes[i..i + |t|][a + k];
    }
  }

  /** The pieces the reader looks at, from index `i`: the name, the gender
      character after its ',', the count's text two places further on, and
      the line end after it. */
  predicate LaidOut(bytes: string, i: nat, name: string, gender: char, d: string, crlf: bool)
  {
    var k := i + |name| + 3;
    var q := k + |d|;
    q + (if crlf then 2 else 1) <= |bytes|
    && bytes[i..i + |name|] == name && bytes[i + |name|] == ',' && bytes[i + |name| + 1] == gender
    && bytes[k..q] == d
    && (crlf ==> bytes[q] == '\r' && bytes[q + 1] == '\n')
    && (!crlf ==> bytes[q] == '\n')
  }

  /** A concatenation found in the bytes: each part stands where it should. */
  lemma SliceSplit(bytes: string, i: nat, x: string, y: string)
    requires i + |x + y| <= |bytes| && bytes[i..i + |x + y|] == x + y
    ensures bytes[i..i + |x|] == x && bytes[i + |x|..i + |x| + |y|] == y
  {
    assert bytes[i..i + |x|] == bytes[i..i + |x + y|][..|x|];
    assert bytes[i + |x|..i + |x| + |y|] == bytes[i..i + |x + y|][|x|..];
  }

  /** A record's line, found in the bytes, lays out its pieces. */
  lemma RecordFields(bytes: string, i: nat, r: NameRecord, crlf: bool)
    requires i + |RecordText(r, crlf)| <= |bytes|
    requires bytes[i..i + |RecordText(r, crlf)|] == RecordText(r, crlf)
    ensures LaidOut(bytes, i, r.name, r.gender, Digits(r.count), crlf)
    ensures |RecordText(r, crlf)| == |r.name| + 3 + |Digits(r.count)| + if crlf then 2 else 1
  {
    LineFields(bytes, i, r.name, r.gender, Digits(r.count), crlf);
  }

  /** A line found in the bytes lays out its pieces. */
  lemma LineFields(bytes: string, i: nat, name: string, gender: char, d: string, crlf: bool)
    requires i + |Line(name, gender, d, crlf)| <= |bytes|
    requires bytes[i..i + |Line(name, gender, d, crlf)|] == Line(name, gender, d, crlf)
    ensures LaidOut(bytes, i, name, gender, d, crlf)
    ensures |Line(name, gender, d, crlf)| == |name| + 3 + |d| + if crlf then 2 else 1
  {
    var n := |name|;
    var sep := [',', gender, ','];
    var end: string := if crlf then ['\r', '\n'] else ['\n'];
    var head := name + sep;
    assert Line(name, gender, d, crlf) == (head + d) + end;
    SliceSplit(bytes, i, head + d, end);
    SliceSplit(bytes, i, head, d);
    SliceSplit(bytes, i, name, sep);
    var q := i + n + 3 + |d|;
    assert bytes[i + n] == bytes[i + n..i + n + 3][0];
    assert bytes[i + n + 1] == bytes[i + n..i + n + 3][1];
    assert bytes[q] == bytes[q..q + |end|][0];
    if crlf {
      assert bytes[q + 1] == bytes[q..q + |end|][1];
    }
  }

  /** The name laid out in the bytes, and the gender character after it. */
  lemma LaidOutName(bytes: string, i: nat, name: string, gender: char, d: string, crlf: bool)
    requires LaidOut(bytes, i, name, gender, d, crlf) && NoComma(name)
    ensures NameFrom(bytes, i, []) == Some((name, i + |name|))
    ensures i + |name| + 1 < |bytes| && bytes[i + |name| + 1] == gender
  {
    NameFromStart(bytes, i, name);
  }

  /** The count's text laid out in the bytes, up to its line end. */
  lemma LaidOutCount(bytes: string, i: nat, name: string, gender: char, d: string, crlf: bool)
    requires LaidOut(bytes, i, name, gender, d, crlf) && IsDigits(d)
    ensures CountFrom(bytes, i + |name| + 3, []) == Some((d, i + |name| + 3 + |d| + if crlf then 1 else 0))
  {
    var k := i + |name| + 3;
    assert k + |d| < |bytes| && bytes[k + |d|] == (if crlf then '\r' else '\n');
    CountFromStart(bytes, k, d);
  }

  lemma NameFromStart(bytes: string, i: nat, name: string)
    requires i + |name| < |bytes| && bytes[i..i + |name|] == name && bytes[i + |name|] == ',' && NoComma(name)
    ensures NameFrom(bytes, i, []) == Some((name, i + |name|))
  {
    NameFromWord(bytes, i, [], name);
    assert [] + name == name;
  }

  lemma CountFromStart(bytes: string, k: nat, d: string)
    requires IsDigits(d) && k + |d| < |bytes| && bytes[k..k + |d|] == d
    requires bytes[k + |d|] == '\n' || (bytes[k + |d|] == '\r' && k + |d| + 1 < |bytes| && bytes[k + |d| + 1] == '\n')
    ensures CountFrom(bytes, k, []) == Some((d, k + |d| + if bytes[k + |d|] == '\r' then 1 else 0))
  {
    CountFromDigits(bytes, k, [], d);
    assert [] + d == d;
  }

  /** `ReadRecord` from the results of its two loops. */
  lemma ReadRecordOf(bytes: string, i: nat, name: string, j: nat, text: string, e: nat, count: int, male: bool, next: nat)
    requires NameFrom(bytes, i, []) == Some((name, j)) && j + 1 < |bytes|
    requires CountFrom(bytes, j + 3, []) == Some((text, e))
    requires count == ParsedCount(text) && male == (bytes[j + 1] == 'M') && next == e + 1
    ensures ReadRecord(bytes, i) == Some((FirstNameInfo(name, count), male, next))
  {
  }

  /** The reader reads a readable record wherever it stands in the file. */
  lemma ReadRecordText(bytes: string, i: nat, r: NameRecord, crlf: bool)
    requires Readable(r) && i + |RecordText(r, crlf)| <= |bytes|
    requires bytes[i..i + |RecordText(r, crlf)|] == RecordText(r, crlf)
    ensures ReadRecord(bytes, i) == Some((FirstNameInfo(r.name, r.count), r.gender == 'M', i + |RecordText(r, crlf)|))
  {
    RecordFields(bytes, i, r, crlf);
    CountDigits(r.count);
    ReadLaidOut(bytes, i, r.name, r.gender, Digits(r.count), r.count, crlf);
  }

  /** The reader reads the pieces of a record laid out in the bytes. */
  lemma ReadLaidOut(bytes: string, i: nat, name: string, gender: char, d: string, count: int, crlf: bool)
    requires LaidOut(bytes, i, name, gender, d, crlf) && NoComma(name) && IsDigits(d) && count == ParsedCount(d)
    ensures ReadRecord(bytes, i)
      == Some((FirstNameInfo(name, count), gender == 'M', i + |name| + 3 + |d| + if crlf then 2 else 1))
  {
    var j := i + |name|;
    var e := j + 3 + |d| + if crlf then 1 else 0;
    LaidOutName(bytes, i, name, gender, d, crlf);
    LaidOutCount(bytes, i, name, gender, d, crlf);
    ReadRecordOf(bytes, i, name, j, d, e, count, gender == 'M', e + 1);
  }

  /** A count the writer printed reads back as itself. */
  lemma CountDigits(n: nat)
    requires n < TwoTo31
    ensures IsDigits(Digits(n)) && ParsedCount(Digits(n)) == n
  {
    DigitsDecimal(n);
    TryParseIntDigits(n);
  }

  lemma {:induction false} FileTextPrefix(rs: seq<NameRecord>, k: nat, crlf: bool)
    requires k <= |rs|
    ensures |FileText(rs[..k], crlf)| <= |FileText(rs, crlf)|
    ensures FileText(rs, crlf)[..|FileText(rs[..k], crlf)|] == FileText(rs[..k], crlf)
    decreases |rs| - k
  {
    if k == |rs| {
      assert rs[..k] == rs;
    } else {
      FileTextPrefix(rs[..|rs| - 1], k, crlf);
      assert rs[..|rs| - 1][..k] == rs[..k];
    }
  }

  /** From the start of record `k` on, a file that begins with the records'
      text reads the rest of them. */
  lemma {:induction false} LoadFromRecords(bytes: string, rs: seq<NameRecord>, k: nat, crlf: bool)
    requires k <= |rs| && forall j :: 0 <= j < |rs| ==> Readable(rs[j])
    requires |FileText(rs, crlf)| <= |bytes| && bytes[..|FileText(rs, crlf)|] == FileText(rs, crlf)
    ensures LoadFrom(bytes, |FileText(rs[..k], crlf)|, Tables(rs[..k]))
      == LoadFrom(bytes, |FileText(rs, crlf)|, Tables(rs))
    decreases |rs| - k
  {
    if k == |rs| {
      assert rs[..k] == rs;
    } else {
      LoadRecordAt(bytes, rs, k, crlf);
      LoadFromRecords(bytes, rs, k + 1, crlf);
    }
  }

  /** In a file that begins with the records' text, loading from the start
      of record `k` goes on from the start of record `k + 1`. */
  lemma LoadRecordAt(bytes: string, rs: seq<NameRecord>, k: nat, crlf: bool)
    requires k < |rs| && forall j :: 0 <= j < |rs| ==> Readable(rs[j])
    requires |FileText(rs, crlf)| <= |bytes| && bytes[..|FileText(rs, crlf)|] == FileText(rs, crlf)
    ensures LoadFrom(bytes, |FileText(rs[..k], crlf)|, Tables(rs[..k]))
      == LoadFrom(bytes, |FileText(rs[..k + 1], crlf)|, Tables(rs[..k + 1]))
  {
    RecordAt(bytes, rs, k, crlf);
    LoadOneRecord(bytes, rs, k, crlf, |FileText(rs[..k], crlf)|, |FileText(rs[..k + 1], crlf)|);
  }

  /** Loading from the start of record `k` reads it and goes on from the
      start of the next one. */
  lemma LoadOneRecord(bytes: string, rs: seq<NameRecord>, k: nat, crlf: bool, p: nat, q: nat)
    requires k < |rs| && Readable(rs[k])
    requires p == |FileText(rs[..k], crlf)| && q == p + |RecordText(rs[k], crlf)| && q <= |bytes|
    requires bytes[p..q] == RecordText(rs[k], crlf)
    ensures LoadFrom(bytes, p, Tables(rs[..k])) == LoadFrom(bytes, q, Tables(rs[..k + 1]))
  {
    var r := rs[k];
    ReadRecordText(bytes, p, r, crlf);
    assert rs[..k + 1][..k] == rs[..k];
    assert Tables(rs[..k + 1]) == Add(Tables(rs[..k]), FirstNameInfo(r.name, r.count), r.gender == 'M');
  }

  /** Record `k`'s text stands in the file right after the text of the
      records before it. */
  lemma RecordAt(bytes: string, rs: seq<NameRecord>, k: nat, crlf: bool)
    requires k < |rs|
    requires |FileText(rs, crlf)| <= |bytes| && bytes[..|FileText(rs, crlf)|] == FileText(rs, crlf)
    ensures |FileText(rs[..k + 1], crlf)| == |FileText(rs[..k], crlf)| + |RecordText(rs[k], crlf)|
    ensures |FileText(rs[..k], crlf)| + |RecordText(rs[k], crlf)| <= |bytes|
    ensures bytes[|FileText(rs[..k], crlf)|..|FileText(rs[..k], crlf)| + |RecordText(rs[k], crlf)|]
      == RecordText(rs[k], crlf)
  {
    var pre := FileText(rs[..k], crlf);
    var t := RecordText(rs[k], crlf);
    assert rs[..k + 1][..k] == rs[..k];
    assert FileText(rs[..k + 1], crlf) == pre + t;
    FileTextPrefix(rs, k + 1, crlf);
    assert bytes[..|pre| + |t|] == pre + t;
    assert bytes[|pre|..|pre| + |t|] == (pre + t)[|pre|..];
  }

  /** Records written in the file format are read back as the tables they
      describe, with either line end. */
  lemma LoadFileText(rs: seq<NameRecord>, crlf: bool)
    requires forall j :: 0 <= j < |rs| ==> Readable(rs[j])
    ensures LoadFrom(FileText(rs, crlf), 0, NoNames) == Some(Tables(rs))
  {
    var b := FileText(rs, crlf);
    assert b[..|b|] == b;
    LoadFromRecords(b, rs, 0, crlf);
    assert rs[..0] == [];
  }

  /** A record that runs to the end of the file without a line end is not
      read. */
  lemma UnterminatedRecord(b: string, i: nat, r: NameRecord, t: string)
    requires Readable(r) && t == r.name + [',', r.gender, ','] + Digits(r.count)
    requires i + |t| == |b| && b[i..] == t
    ensures ReadRecord(b, i) == None
  {
    UnterminatedName(b, i, r, t);
    UnterminatedCount(b, i, r, t, i + |r.name| + 3);
  }

  lemma UnterminatedName(b: string, i: nat, r: NameRecord, t: string)
    requires Readable(r) && t == r.name + [',', r.gender, ','] + Digits(r.count)
    requires i + |t| == |b| && b[i..] == t
    ensures NameFrom(b, i, []) == Some((r.name, i + |r.name|)) && i + |r.name| + 1 < |b|
  {
    var n := |r.name|;
    var sep := [',', r.gender, ','];
    assert t == (r.name + sep) + Digits(r.count);
    assert b[i..i + |t|] == t;
    SliceSplit(b, i, r.name + sep, Digits(r.count));
    SliceSplit(b, i, r.name, sep);
    assert b[i + n] == b[i + n..i + n + 3][0];
    NameFromStart(b, i, r.name);
  }

  lemma UnterminatedCount(b: string, i: nat, r: NameRecord, t: string, k: nat)
    requires Readable(r) && t == r.name + [',', r.gender, ','] + Digits(r.count)
    requires i + |t| == |b| && b[i..] == t && k == i + |r.name| + 3
    ensures CountFrom(b, k, []) == None
  {
    var d := Digits(r.count);
    assert b[k..] == d by {
      assert t[|r.name| + 3..] == d;
    }
    DigitsDecimal(r.count);
    CountFromDigitsToEnd(b, k, [], d);
  }

  /** A last record without a line end makes the count loop read past the end
      of the file. */
  lemma LastRecordWithoutLineEnd(rs: seq<NameRecord>, r: NameRecord, crlf: bool)
    requires forall j :: 0 <= j < |rs| ==> Readable(rs[j])
    requires Readable(r)
    ensures LoadFrom(FileText(rs, crlf) + r.name + [',', r.gender, ','] + Digits(r.count), 0, NoNames) == None
  {
    var pre := FileText(rs, crlf);
    var t := r.name + [',', r.gender, ','] + Digits(r.count);
    var b := pre + t;
    assert b == FileText(rs, crlf) + r.name + [',', r.gender, ','] + Digits(r.count);
    assert b[..|pre|] == pre;
    LoadFromRecords(b, rs, 0, crlf);
    assert rs[..0] == [];
    assert b[|pre|..] == t;
    UnterminatedRecord(b, |pre|, r, t);
  }

  /** Digits up to the end of the file: the loop indexes past the end. */
  lemma {:induction false} CountFromDigitsToEnd(bytes: string, k: nat, text: string, d: string)
    requires IsDigits(d) && k + |d| == |bytes| && bytes[k..] == d
    ensures CountFrom(bytes, k, text) == None
    decreases |d|
  {
    assert bytes[k] == d[0];
    if |d| > 1 {
      assert bytes[k + 1] == d[1];
      assert bytes[k + 1..] == d[1..];
      CountFromDigitsToEnd(bytes, k + 1, text + [d[0]], d[1..]);
    }
  }

  /** The tables hold the records of each gender in file order, a record
      being male exactly when its gender character is 'M', and each total is
      the sum of its table's counts. */
  lemma {:induction false} TablesByGender(rs: seq<NameRecord>)
    ensures Tables(rs).male == Infos(Males(rs)) && Tables(rs).female == Infos(Females(rs))
    ensures Tables(rs).totalMale == Sum(Males(rs)) && Tables(rs).totalFemale == Sum(Females(rs))
  {
    if rs != [] {
      var init := rs[..|rs| - 1];
      var r := rs[|rs| - 1];
      TablesByGender(init);
      if r.gender == 'M' {
        InfosSnoc(Males(init), r);
        SumSnoc(Males(init), r);
        assert Males(rs) == Males(init) + [r];
        assert Females(rs) == Females(init);
      } else {
        InfosSnoc(Females(init), r);
        SumSnoc(Females(init), r);
        assert Females(rs) == Females(init) + [r];
        assert Males(rs) == Males(init);
      }
    }
  }

  lemma InfosSnoc(rs: seq<NameRecord>, r: NameRecord)
    ensures Infos(rs + [r]) == Infos(rs) + [FirstNameInfo(r.name, r.count)]
  {
  }

  lemma SumSnoc(rs: seq<NameRecord>, r: NameRecord)
    ensures Sum(rs + [r]) == Sum(rs) + r.count
  {
    assert (rs + [r])[..|rs|] == rs;
  }

  function Males(rs: seq<NameRecord>): (r: seq<NameRecord>)
    ensures forall j :: 0 <= j < |r| ==> r[j].gender == 'M' && r[j] in rs
  {
    if rs == [] then []
    else Males(rs[..|rs| - 1]) + if rs[|rs| - 1].gender == 'M' then [rs[|rs| - 1]] else []
  }

  function Females(rs: seq<NameRecord>): (r: seq<NameRecord>)
    ensures forall j :: 0 <= j < |r| ==> r[j].gender != 'M' && r[j] in rs
  {
    if rs == [] then []
    else Females(rs[..|rs| - 1]) + if rs[|rs| - 1].gender != 'M' then [rs[|rs| - 1]] else []
  }

  function Infos(rs: seq<NameRecord>): (r: seq<FirstNameInfo>)
    ensures |r| == |rs| && forall j :: 0 <= j < |rs| ==> r[j] == FirstNameInfo(rs[j].name, rs[j].count)
  {
    seq(|rs|, j requires 0 <= j < |rs| => FirstNameInfo(rs[j].name, rs[j].count))
  }

  function Sum(rs: seq<NameRecord>): int
  {
    if rs == [] then 0 else Sum(rs[..|rs| - 1]) + rs[|rs| - 1].count
  }

  // ---------------------------------------------------------------------------
  // The weighted choice (`GetFirstName`); `idx` is the draw of
  // `Random.Range(0, totalOccurences)`
  // ---------------------------------------------------------------------------

  /** The occurrences of the first `n` names. */
  function Prefix(names: seq<FirstNameInfo>, n: nat): int
    requires n <= |names|
  {
    if n == 0 then 0 else Prefix(names, n - 1) + names[n - 1].occurrences
  }

  /** The scan from name `i` on, `sum` being the occurrences before it: the
      first name after which `sum` passes `idx` (`strict`) or reaches it (not
      `strict`); None where the scan runs past the last name. */
  function PickFrom(names: seq<FirstNameInfo>, idx: int, i: nat, sum: int, strict: bool): (r: Option<nat>)
    ensures r.Some? ==> i <= r.value < |names|
    decreases |names| - i
  {
    if i >= |names| then None
    else
      var s := sum + names[i].occurrences;
      if (if strict then s > idx else s >= idx) then Some(i)
      else PickFrom(names, idx, i + 1, s, strict)
  }

  /** The name drawn by `idx`, or None where the loop indexes past the end. */
  function FirstNameAt(names: seq<FirstNameInfo>, idx: int, strict: bool): Option<string>
  {
    match PickFrom(names, idx, 0, 0, strict)
    case None => None
    case Some(i) => Some(names[i].name)
  }

  /** `GetFirstName` with the corrected test `sum > idx`. */
  method GetFirstName(names: seq<FirstNameInfo>, idx: int) returns (r: Option<string>)
    ensures r == FirstNameAt(names, idx, true)
  {
    var sum := 0;
    var i := 0;
    while true
      invariant i <= |names|
      invariant PickFrom(names, idx, i, sum, true) == PickFrom(names, idx, 0, 0, true)
      decreases |names| - i
    {
      if i >= |names| {
        return None;
      }
      sum := sum + names[i].occurrences;
      if sum > idx {
        return Some(names[i].name);
      }
      i := i + 1;
    }
  }

  predicate NonNegative(names: seq<FirstNameInfo>)
  {
    forall j :: 0 <= j < |names| ==> names[j].occurrences >= 0
  }

  lemma {:induction false} PrefixMonotone(names: seq<FirstNameInfo>, a: nat, b: nat)
    requires NonNegative(names) && a <= b <= |names|
    ensures Prefix(names, a) <= Prefix(names, b)
    decreases b - a
  {
    if a < b {
      PrefixMonotone(names, a, b - 1);
    }
  }

  /** From name `i` on, the corrected scan stops at the name whose range of
      draws holds `idx`. */
  lemma {:induction false} PickFromInRange(names: seq<FirstNameInfo>, idx: int, i: nat, sum: int)
    requires NonNegative(names) && i < |names| && sum == Prefix(names, i)
    requires Prefix(names, i) <= idx < Prefix(names, |names|)
    ensures PickFrom(names, idx, i, sum, true).Some?
    ensures var j := PickFrom(names, idx, i, sum, true).value;
      Prefix(names, j) <= idx < Prefix(names, j + 1)
    decreases |names| - i
  {
    var s := sum + names[i].occurrences;
    assert s == Prefix(names, i + 1);
    if s <= idx {
      if i + 1 == |names| {
        assert false;
      }
      PickFromInRange(names, idx, i + 1, s);
    }
  }

  /** With non-negative occurrences and a draw below their total, the
      corrected choice is name `j` exactly when `idx` lies in `j`'s range
      [Prefix(j), Prefix(j + 1)): each name is drawn with the weight of its
      occurrences. */
  lemma FirstNameWeighted(names: seq<FirstNameInfo>, idx: int, j: nat)
    requires NonNegative(names) && 0 <= idx < Prefix(names, |names|) && j < |names|
    ensures PickFrom(names, idx, 0, 0, true) == Some(j)
      <==> Prefix(names, j) <= idx < Prefix(names, j + 1)
  {
    PickFromInRange(names, idx, 0, 0);
    var k := PickFrom(names, idx, 0, 0, true).value;
    if Prefix(names, j) <= idx < Prefix(names, j + 1) && k != j {
      if k < j {
        PrefixMonotone(names, k + 1, j);
      } else {
        PrefixMonotone(names, j + 1, k);
      }
    }
  }

  /** As written (`sum >= idx`), two names of one occurrence each: both draws
      pick the first name, so the second is never chosen; the corrected scan
      picks the second on draw 1. */
  lemma FirstNameAsWritten()
    ensures var names := [FirstNameInfo("A", 1), FirstNameInfo("B", 1)];
      Prefix(names, 2) == 2
      && FirstNameAt(names, 0, false) == Some("A") && FirstNameAt(names, 1, false) == Some("A")
      && FirstNameAt(names, 0, true) == Some("A") && FirstNameAt(names, 1, true) == Some("B")
  {
  }

  /** A draw below the male total of tables read from records finds a name. */
  lemma MaleFirstNameFound(rs: seq<NameRecord>, idx: int)
    requires 0 <= idx < Tables(rs).totalMale
    ensures FirstNameAt(Tables(rs).male, idx, true).Some?
  {
    TablesByGender(rs);
    var names := Infos(Males(rs));
    PrefixSum(Males(rs), |names|);
    assert Males(rs)[..|names|] == Males(rs);
    PickFromInRange(names, idx, 0, 0);
  }

  /** The female counterpart. */
  lemma FemaleFirstNameFound(rs: seq<NameRecord>, idx: int)
    requires 0 <= idx < Tables(rs).totalFemale
    ensures FirstNameAt(Tables(rs).female, idx, true).Some?
  {
    TablesByGender(rs);
    var names := Infos(Females(rs));
    PrefixSum(Females(rs), |names|);
    assert Females(rs)[..|names|] == Females(rs);
    PickFromInRange(names, idx, 0, 0);
  }

  lemma {:induction false} PrefixSum(rs: seq<NameRecord>, n: nat)
    requires n <= |rs|
    ensures NonNegative(Infos(rs)) && Prefix(Infos(rs), n) == Sum(rs[..n])
  {
    if n > 0 {
      PrefixSum(rs, n - 1);
      assert rs[..n][..n - 1] == rs[..n - 1];
    }
  }

  // ---------------------------------------------------------------------------
  // The name lists (`LoadFile`) and the draws from them (`LastName`, `Place`)
  // ---------------------------------------------------------------------------

  /** `LoadFile`: the text of a name list split at its line ends. Nothing is
      lost: the pieces hold no '\n', and joined by '\n' they give the text
      back. */
  function LoadFile(text: string): (r: seq<string>)
    ensures |r| >= 1 && JoinWith(r, '\n') == text
    ensures forall k :: 0 <= k < |r| ==> '\n' !in r[k]
  {
    SplitJoin(text, '\n');
    SplitOn(text, '\n')
  }

  /** A list written one name per line is read back as those names. */
  lemma LoadFileLines(names: seq<string>)
    requires |names| >= 1 && forall k :: 0 <= k < |names| ==> '\n' !in names[k]
    ensures LoadFile(JoinWith(names, '\n')) == names
  {
    SplitJoinWords(names, '\n');
  }

  /** A list whose text ends in a line end has an empty last name, which
      `LastName` and `Place` (lines 141-167), drawing any index below the
      piece count, can return. */
  lemma LoadFileFinalLineEnd(text: string)
    requires |text| > 0 && text[|text| - 1] == '\n'
    ensures LoadFile(text)[|LoadFile(text)| - 1] == []
  {
    assert text == text[..|text| - 1] + ['\n'] + [];
    SplitAppend(text[..|text| - 1], '\n', []);
  }

  /** `LastName` and `Place`: the entry at the draw of
      `Random.Range(0, lines.Length)`. */
  function DrawLine(lines: seq<string>, idx: int): (r: string)
    requires 0 <= idx < |lines|
    ensures r in lines
  {
    lines[idx]
  }

  // ---------------------------------------------------------------------------
  // `GenderAndAge`: the age bracket for a draw of `Random.value`
  // ---------------------------------------------------------------------------

  /** A bracket: whether the citizen is female, and the range `[lo, hi)`
      that `Random.Range(lo, hi)` then draws the age from. */
  datatype Bracket = Bracket(female: bool, lo: int, hi: int)

  /** The brackets in the order of the tests, the last one being the value
      returned when no test succeeds: eighteen male brackets (five years
      each, then 85 to 105), then the female ones in the same ages. */
  function BracketAt(k: nat): (r: Bracket)
    requires k <= 35
    ensures r.lo < r.hi
  {
    var i := if k < 18 then k else k - 18;
    Bracket(k >= 18, if i < 17 then 5 * i else 85, if i < 17 then 5 * i + 5 else 105)
  }

  /** The thresholds as written (lines 196-335). The female part repeats
      0.8492, so every later test uses the threshold of the bracket before
      it, and the last one, 0.9883, is missing. */
  const AsWrittenThresholds: seq<real> := [
    0.0349, 0.0723, 0.1097, 0.1466, 0.1810, 0.2158, 0.2515, 0.2917, 0.3312,
    0.3663, 0.3969, 0.4200, 0.4383, 0.4539, 0.4678, 0.4786, 0.4851, 0.4895,
    0.5228, 0.5584, 0.5940, 0.6289, 0.6619, 0.6960, 0.7322, 0.7727, 0.8129,
    0.8492, 0.8492, 0.8811, 0.9058, 0.9259, 0.9441, 0.9617, 0.9772]

  /** The thresholds the accumulated shares of the table in the comment
      (lines 173-194) give. */
  const Thresholds: seq<real> := [
    0.0349, 0.0723, 0.1097, 0.1466, 0.1810, 0.2158, 0.2515, 0.2917, 0.3312,
    0.3663, 0.3969, 0.4200, 0.4383, 0.4539, 0.4678, 0.4786, 0.4851, 0.4895,
    0.5228, 0.5584, 0.5940, 0.6289, 0.6619, 0.6960, 0.7322, 0.7727, 0.8129,
    0.8492, 0.8811, 0.9058, 0.9259, 0.9441, 0.9617, 0.9772, 0.9883]

  /** The first test `rnd < t` that succeeds, from test `i` on. */
  function FirstBelow(ts: seq<real>, rnd: real, i: nat): (r: Option<nat>)
    ensures r.Some? ==> (i <= r.value < |ts| && rnd < ts[r.value]
                         && forall j :: i <= j < r.value ==> rnd >= ts[j])
    ensures r.None? ==> forall j :: i <= j < |ts| ==> rnd >= ts[j]
    decreases |ts| - i
  {
    if i >= |ts| then None
    else if rnd < ts[i] then Some(i)
    else FirstBelow(ts, rnd, i + 1)
  }

  /** `GenderAndAge` for the draw `rnd`, with the given thresholds. */
  function GenderAndAge(ts: seq<real>, rnd: real): Bracket
    requires |ts| == 35
  {
    match FirstBelow(ts, rnd, 0)
    case None => BracketAt(35)
    case Some(k) => BracketAt(k)
  }

  predicate Increasing(ts: seq<real>)
  {
    forall j :: 0 < j < |ts| ==> ts[j - 1] < ts[j]
  }

  /** The first successful test is at `k` when test `k` succeeds and none
      before it does. */
  lemma FirstBelowAt(ts: seq<real>, rnd: real, k: nat)
    requires k < |ts| && rnd < ts[k] && forall j :: 0 <= j < k ==> rnd >= ts[j]
    ensures FirstBelow(ts, rnd, 0) == Some(k)
  {
    var r := FirstBelow(ts, rnd, 0);
    assert r.Some? && r.value <= k;
  }

  /** With increasing thresholds, bracket `k` is drawn exactly for the values
      from the threshold before it up to its own: the brackets' shares are
      the differences of the thresholds. */
  lemma FirstBelowInterval(ts: seq<real>, rnd: real, k: nat)
    requires Increasing(ts) && k < |ts|
    ensures FirstBelow(ts, rnd, 0) == Some(k) <==> (k == 0 || ts[k - 1] <= rnd) && rnd < ts[k]
  {
    if (k == 0 || ts[k - 1] <= rnd) && rnd < ts[k] {
      if k > 0 {
        IncreasingBelow(ts, k - 1);
      }
      FirstBelowAt(ts, rnd, k);
    }
  }

  /** Every threshold up to `b` is at most the one at `b`. */
  lemma {:induction false} IncreasingBelow(ts: seq<real>, b: nat)
    requires Increasing(ts) && b < |ts|
    ensures forall a :: 0 <= a <= b ==> ts[a] <= ts[b]
  {
    if b > 0 {
      IncreasingBelow(ts, b - 1);
    }
  }

  /** The intended thresholds increase. */
  lemma ThresholdsIncrease()
    ensures Increasing(Thresholds)
  {
  }

  /** Only the test at 28 leads to the bracket of women aged 50 to 54. */
  lemma BracketOfWomenInFifties(k: nat)
    requires k <= 35
    ensures BracketAt(k) == Bracket(true, 50, 55) <==> k == 28
  {
  }

  /** As written, no draw gives a woman aged 50 to 54, since that bracket's
      test repeats the threshold of the one before. */
  lemma GenderAndAgeFinding(rnd: real)
    ensures GenderAndAge(AsWrittenThresholds, rnd) != Bracket(true, 50, 55)
  {
    var r := FirstBelow(AsWrittenThresholds, rnd, 0);
    if r.Some? {
      BracketOfWomenInFifties(r.value);
      assert AsWrittenThresholds[27] == AsWrittenThresholds[28];
    }
  }

  /** With the intended thresholds, the draws from 0.8492 up to 0.8811,
      3.19% of them as in the table, give women aged 50 to 54. */
  lemma GenderAndAgeFifties(rnd: real)
    requires 0.8492 <= rnd < 0.8811
    ensures GenderAndAge(Thresholds, rnd) == Bracket(true, 50, 55)
  {
    ThresholdsUpTo27();
    FirstBelowAt(Thresholds, rnd, 28);
    assert BracketAt(28) == Bracket(true, 50, 55);
  }

  lemma ThresholdsUpTo27()
    ensures forall j :: 0 <= j < 28 ==> Thresholds[j] <= 0.8492
    ensures Thresholds[28] == 0.8811
  {
    ThresholdsIncrease();
    IncreasingBelow(Thresholds, 27);
  }

  lemma AsWrittenUpTo28()
    ensures forall j :: 0 <= j < 29 ==> AsWrittenThresholds[j] <= 0.8492
  {
  }

  /** As written, those draws give women aged 55 to 59. */
  lemma GenderAndAgeFiftiesAsWritten(rnd: real)
    requires 0.8492 <= rnd < 0.8811
    ensures GenderAndAge(AsWrittenThresholds, rnd) == Bracket(true, 55, 60)
  {
    AsWrittenUpTo28();
    FirstBelowAt(AsWrittenThresholds, rnd, 29);
  }
}
