/** The stored name of an uploaded prescription: the appointment id in decimal,
    an underscore, then the original filename. */
module FileNames {
  import opened Query

  predicate IsDigit(c: char)
  {
    '0' <= c <= '9'
  }

  predicate AllDigits(s: string)
  {
    forall i :: 0 <= i < |s| ==> IsDigit(s[i])
  }

  function DigitChar(d: nat): (c: char)
    requires d < 10
    ensures IsDigit(c) && c as int - '0' as int == d
  {
    ('0' as int + d) as char
  }

  /** Python's `str` of a non-negative integer: decimal digits without leading zeros. */
  function DecimalString(n: nat): (s: string)
    ensures AllDigits(s)
    ensures |s| >= 1
    ensures (|s| == 1) == (n < 10)
    ensures |s| > 1 ==> s[0] != '0'
    decreases n
  {
    if n < 10 then [DigitChar(n)] else DecimalString(n / 10) + [DigitChar(n % 10)]
  }

  /** The value of a string of decimal digits (the empty string reads as 0). */
  function ParseDecimal(s: string): nat
    requires AllDigits(s)
    decreases |s|
  {
    if |s| == 0 then 0 else 10 * ParseDecimal(s[..|s| - 1]) + (s[|s| - 1] as int - '0' as int)
  }

  /** Reading back the decimal rendering gives the number. */
  lemma {:induction false} ParseDecimalString(n: nat)
    ensures ParseDecimal(DecimalString(n)) == n
    decreases n
  {
    if n >= 10 {
      var s := DecimalString(n / 10);
      var t := s + [DigitChar(n % 10)];
      assert t[..|t| - 1] == s;
      ParseDecimalString(n / 10);
    }
  }

  /** A rendering `str` can produce: digits, at least one, and no leading zero. */
  predicate Canonical(s: string)
  {
    |s| >= 1 && AllDigits(s) && (|s| > 1 ==> s[0] != '0')
  }

  /** A digit string without a leading zero reads as at least 1, and as at least
      10 when it has more than one digit. */
  lemma {:induction false} ParseDecimalLeading(s: string)
    requires |s| >= 1 && AllDigits(s) && s[0] != '0'
    ensures ParseDecimal(s) >= 1
    ensures |s| > 1 ==> ParseDecimal(s) >= 10
    decreases |s|
  {
    if |s| > 1 {
      var t := s[..|s| - 1];
      assert t[0] == s[0];
      ParseDecimalLeading(t);
    }
  }

  /** Every canonical digit string is the rendering of the number it reads as. */
  lemma {:induction false} DecimalStringOfParse(s: string)
    requires Canonical(s)
    ensures DecimalString(ParseDecimal(s)) == s
    decreases |s|
  {
    var d := s[|s| - 1] as int - '0' as int;
    if |s| > 1 {
      var t := s[..|s| - 1];
      assert t[0] == s[0];
      ParseDecimalLeading(s);
      ParseDecimalLeading(t);
      var n := ParseDecimal(s);
      assert n == 10 * ParseDecimal(t) + d;
      assert n / 10 == ParseDecimal(t) && n % 10 == d;
      DecimalStringOfParse(t);
      assert s == t + [DigitChar(d)];
    } else {
      assert s == [DigitChar(d)];
    }
  }

  /** Splits a stored name at its first underscore into the appointment id and
      the original filename, or fails when the part before it is not the decimal
      rendering of an id. */
  function SplitStoredName(name: string): Option<(nat, string)>
  {
    match FirstIndex(name, (c: char) => c == '_')
    case None => None
    case Some(k) =>
      if !Canonical(name[..k]) then None
      else Some((ParseDecimal(name[..k]), name[k + 1..]))
  }

  /** The stored name `f"{appointment_id}_{file.filename}"`: the decimal id, an
      underscore, the filename; it splits back into the id and the filename. */
  function StoredName(appointmentId: nat, filename: string): (r: string)
    ensures r == DecimalString(appointmentId) + "_" + filename
    ensures SplitStoredName(r) == Some((appointmentId, filename))
  {
    var d := DecimalString(appointmentId);
    var r := d + "_" + filename;
    assert r[|d|] == '_';
    assert r[..|d|] == d;
    assert r[|d| + 1..] == filename;
    assert forall j :: 0 <= j < |d| ==> r[j] == d[j];
    ParseDecimalString(appointmentId);
    r
  }

  /** Whatever splits is a stored name: splitting and rebuilding gives the name back. */
  lemma SplitStoredNameInverse(name: string)
    requires SplitStoredName(name).Some?
    ensures StoredName(SplitStoredName(name).value.0, SplitStoredName(name).value.1) == name
  {
    var k := FirstIndex(name, (c: char) => c == '_').value;
    DecimalStringOfParse(name[..k]);
    assert name == name[..k] + "_" + name[k + 1..];
  }

  /** Two uploads get the same stored name exactly when they are for the same
      appointment and carry the same filename (so a repeat upload overwrites). */
  lemma StoredNameInjective(id1: nat, filename1: string, id2: nat, filename2: string)
    ensures StoredName(id1, filename1) == StoredName(id2, filename2)
            <==> id1 == id2 && filename1 == filename2
  {
  }

  /** The upload of `report.pdf` for appointment 5 is stored as `5_report.pdf`;
      a zero-padded `05_report.pdf` is not the stored name of any upload. */
  lemma StoredNameExample()
    ensures StoredName(5, "report.pdf") == "5_report.pdf"
    ensures SplitStoredName("05_report.pdf") == None
  {
    assert "05_report.pdf"[2] == '_';
    assert FirstIndex("05_report.pdf", (c: char) => c == '_') == Some(2);
  }
}
