/** The report exporter's pure part (`uploadToS3`): one row of three strings
    per candidate under a fixed header, and the object key built from the
    export time. ISO-8601 rendering of a timestamp is a parameter. */
module Report {
  import opened Wrappers
  import opened Scanner

  const NotAvailable: string := "N/A"
  const Header: seq<string> := ["Name", "LastAccessedDate", "DaysUnused"]
  const KeyPrefix: string := "unused-secrets-"
  const KeySuffix: string := ".csv"
  const ContentType: string := "text/csv"

  /** Renders a millisecond timestamp as `Date.toISOString()` does. */
  type IsoRenderer = int -> string

  datatype Row = Row(name: string, lastAccessedDate: string, daysUnused: string)

  /** The records handed to the CSV writer, under its header. */
  datatype Table = Table(header: seq<string>, rows: seq<Row>)

  predicate IsDigit(c: char)
  {
    '0' <= c <= '9'
  }

  /** `n.toString()` for a natural number. */
  function DecimalString(n: nat): (s: string)
    ensures |s| >= 1
    ensures forall i :: 0 <= i < |s| ==> IsDigit(s[i])
    ensures |s| > 1 ==> s[0] != '0'
  {
    if n < 10 then ['0' + n as char]
    else DecimalString(n / 10) + ['0' + (n % 10) as char]
  }

  function DigitsValue(s: string): nat
    requires forall i :: 0 <= i < |s| ==> IsDigit(s[i])
  {
    if s == [] then 0
    else
      var last := s[|s| - 1];
      assert IsDigit(last);
      DigitsValue(s[..|s| - 1]) * 10 + (last as int - '0' as int)
  }

  /** Reads a column back: a non-empty string of decimal digits. */
  function ParseDecimal(s: string): Option<nat>
  {
    if s != [] && forall i :: 0 <= i < |s| ==> IsDigit(s[i]) then Some(DigitsValue(s)) else None
  }

  /** The DaysUnused column reads back as the number it renders. */
  lemma {:induction false} DecimalRoundTrip(n: nat)
    ensures ParseDecimal(DecimalString(n)) == Some(n)
  {
    var s := DecimalString(n);
    if n >= 10 {
      DecimalRoundTrip(n / 10);
      assert s[..|s| - 1] == DecimalString(n / 10);
      assert s[|s| - 1] as int - '0' as int == n % 10;
      assert DigitsValue(s) == (n / 10) * 10 + n % 10;
    } else {
      assert s[..0] == [];
    }
  }

  /** The record for one candidate: its name, its ISO date or "N/A", its
      day count in decimal or "N/A". */
  function ProjectRow(c: Candidate, iso: IsoRenderer): (row: Row)
    ensures row.name == c.name
    ensures c.daysUnused.Some? ==> ParseDecimal(row.daysUnused) == Some(c.daysUnused.value)
    ensures row.daysUnused == NotAvailable <==> c.daysUnused.None?
    ensures c.lastAccessed.None? ==> row.lastAccessedDate == NotAvailable
    ensures c.lastAccessed.Some? ==> row.lastAccessedDate == iso(c.lastAccessed.value)
  {
    var date := match c.lastAccessed
      case None => NotAvailable
      case Some(t) => iso(t);
    var days := match c.daysUnused
      case None => NotAvailable
      case Some(d) => DecimalString(d);
    DecimalRoundTrip(if c.daysUnused.Some? then c.daysUnused.value else 0);
    assert c.daysUnused.Some? ==> !IsDigit(NotAvailable[0]) && IsDigit(days[0]);
    Row(c.name, date, days)
  }

  function BuildTable(candidates: seq<Candidate>, iso: IsoRenderer): (t: Table)
    ensures t.header == Header && |t.rows| == |candidates|
    ensures forall i :: 0 <= i < |candidates| ==> t.rows[i] == ProjectRow(candidates[i], iso)
  {
    Table(Header, seq(|candidates|, i requires 0 <= i < |candidates| => ProjectRow(candidates[i], iso)))
  }

  /** For the candidates a scan selects, no column reads "N/A": every row
      names its secret, renders its last-access date, and its DaysUnused
      column reads back as an age of at least the threshold. */
  lemma ScannedRowsAreComplete(entries: seq<Entry>, suppressed: seq<string>, threshold: int, now: int, iso: IsoRenderer, i: nat)
    requires forall t :: iso(t) != NotAvailable
    requires i < |Select(entries, suppressed, threshold, now)|
    ensures var c := Select(entries, suppressed, threshold, now)[i];
      var row := BuildTable(Select(entries, suppressed, threshold, now), iso).rows[i];
      row.name == c.name &&
      row.lastAccessedDate == iso(c.lastAccessed.value) && row.lastAccessedDate != NotAvailable &&
      row.daysUnused != NotAvailable &&
      ParseDecimal(row.daysUnused) == Some(c.daysUnused.value) && c.daysUnused.value >= threshold
  {
    var found := Select(entries, suppressed, threshold, now);
    assert found[i] in found;
  }

  /** `unused-secrets-<ISO timestamp>.csv` */
  function ReportKey(stamp: string): (key: string)
    ensures |key| == |KeyPrefix| + |stamp| + |KeySuffix|
  {
    KeyPrefix + stamp + KeySuffix
  }

  /** The timestamp a report key was built from, if it has the key's shape. */
  function StampOf(key: string): Option<string>
  {
    if |key| >= |KeyPrefix| + |KeySuffix| && key[..|KeyPrefix|] == KeyPrefix && key[|key| - |KeySuffix|..] == KeySuffix
    then Some(key[|KeyPrefix|..|key| - |KeySuffix|])
    else None
  }

  /** A key names its export time: the timestamp is recovered from the key,
      and every key of that shape is the key of the timestamp it holds. */
  lemma KeyStampRoundTrip(stamp: string, key: string)
    ensures StampOf(ReportKey(stamp)) == Some(stamp)
    ensures StampOf(key) == Some(stamp) ==> ReportKey(stamp) == key
  {
    var k := ReportKey(stamp);
    assert k[..|KeyPrefix|] == KeyPrefix;
    assert k[|k| - |KeySuffix|..] == KeySuffix;
    assert k[|KeyPrefix|..|k| - |KeySuffix|] == stamp;
    if StampOf(key) == Some(stamp) {
      assert key == key[..|KeyPrefix|] + key[|KeyPrefix|..|key| - |KeySuffix|] + key[|key| - |KeySuffix|..];
    }
  }

  /** Distinct export timestamps give distinct objects: no report overwrites
      another. */
  lemma DistinctStampsDistinctKeys(a: string, b: string)
    requires a != b
    ensures ReportKey(a) != ReportKey(b)
  {
    KeyStampRoundTrip(a, ReportKey(b));
    KeyStampRoundTrip(b, ReportKey(b));
  }
}
