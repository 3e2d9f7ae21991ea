/** The udev `ACCEL_MOUNT_MATRIX` format: rows separated by `;`, entries of a
    row separated by `,`, each entry a decimal integer
    (`"1,0,0;0,1,0;0,0,1"`). */
module MountMatrix {
  import opened Wrappers
  import opened Text
  import opened IntLiteral

  type Matrix = seq<seq<int>>

  /** Why a mount-matrix string is refused. */
  datatype ParseError =
    /** `int()` raised on this field. */
    | InvalidLiteral(field: string)
    /** The rows have different lengths, which `np.array` refuses. */
    | Inhomogeneous

  /** All rows of `m` have the same length. */
  predicate Rectangular(m: Matrix)
  {
    forall i, j :: 0 <= i < |m| && 0 <= j < |m| ==> |m[i]| == |m[j]|
  }

  /** The `;`-separated row segments of a mount-matrix string. */
  function Rows(s: string): seq<string>
  {
    Split(s, ';')
  }

  /** The `,`-separated fields of one row segment. */
  function Fields(row: string): seq<string>
  {
    Split(row, ',')
  }

  /** `[int(val) for val in fields]`: the first field that is not an
      integer raises. */
  function ParseFields(fields: seq<string>): (r: Result<seq<int>, ParseError>)
    ensures r.Success? ==> |r.value| == |fields|
    ensures r.Success? ==> forall j :: 0 <= j < |fields| ==> ParseInt(fields[j]) == Some(r.value[j])
    ensures r.Failure? ==> exists j :: 0 <= j < |fields| && ParseInt(fields[j]).None?
    ensures r.Failure? ==> r.error.InvalidLiteral? && r.error.field in fields
                           && ParseInt(r.error.field).None?
  {
    if |fields| == 0 then Success([])
    else
      match ParseInt(fields[0])
      case None => Failure(InvalidLiteral(fields[0]))
      case Some(v) =>
        match ParseFields(fields[1..])
        case Failure(e) =>
          var j :| 0 <= j < |fields| - 1 && ParseInt(fields[1..][j]).None?;
          assert fields[1..][j] == fields[j + 1];
          Failure(e)
        case Success(vs) =>
          assert forall j :: 1 <= j < |fields| ==> fields[j] == fields[1..][j - 1];
          Success([v] + vs)
  }

  /** `f` is one of the fields of `rows`. */
  predicate IsFieldOf(f: string, rows: seq<seq<string>>)
  {
    exists i, j :: 0 <= i < |rows| && 0 <= j < |rows[i]| && rows[i][j] == f
  }

  /** The nested comprehension over rows, before `np.array` sees it: each
      row given as its list of fields. */
  function ParseRows(rows: seq<seq<string>>): (r: Result<Matrix, ParseError>)
    ensures r.Success? ==> |r.value| == |rows|
    ensures r.Success? ==> forall i :: 0 <= i < |rows| ==> ParseFields(rows[i]) == Success(r.value[i])
    ensures r.Failure? ==> exists i :: 0 <= i < |rows| && ParseFields(rows[i]).Failure?
    ensures r.Failure? ==> r.error.InvalidLiteral? && ParseInt(r.error.field).None?
                           && IsFieldOf(r.error.field, rows)
  {
    if |rows| == 0 then Success([])
    else
      match ParseFields(rows[0])
      case Failure(e) =>
        var j :| 0 <= j < |rows[0]| && rows[0][j] == e.field;
        assert IsFieldOf(e.field, rows);
        Failure(e)
      case Success(row) =>
        match ParseRows(rows[1..])
        case Failure(e) =>
          var i :| 0 <= i < |rows| - 1 && ParseFields(rows[1..][i]).Failure?;
          assert rows[1..][i] == rows[i + 1];
          var i', j :| 0 <= i' < |rows[1..]| && 0 <= j < |rows[1..][i']| && rows[1..][i'][j] == e.field;
          assert rows[i' + 1][j] == e.field;
          Failure(e)
        case Success(m) =>
          assert forall i :: 1 <= i < |rows| ==> rows[i] == rows[1..][i - 1];
          Success([row] + m)
  }

  /** The fields of every row of `s`. */
  function RowFields(s: string): (fs: seq<seq<string>>)
    ensures |fs| == |Rows(s)|
    ensures forall i :: 0 <= i < |fs| ==> fs[i] == Fields(Rows(s)[i])
  {
    var rows := Rows(s);
    seq(|rows|, i requires 0 <= i < |rows| => Fields(rows[i]))
  }

  /** `Accel.parse_mount_matrix`: one row per `;`-separated segment, one entry
      per `,`-separated field of that segment. */
  function ParseMountMatrix(s: string): (r: Result<Matrix, ParseError>)
    ensures r.Success? ==> |r.value| == Count(s, ';') + 1
    ensures r.Success? ==> forall i :: 0 <= i < |r.value| ==>
                             ParseFields(RowFields(s)[i]) == Success(r.value[i])
    ensures r.Success? ==> Rectangular(r.value)
    ensures r.Failure? && r.error.InvalidLiteral? ==>
              ParseInt(r.error.field).None? && IsFieldOf(r.error.field, RowFields(s))
              && exists i :: 0 <= i < |RowFields(s)| && ParseFields(RowFields(s)[i]).Failure?
    ensures r == Failure(Inhomogeneous) ==>
              ParseRows(RowFields(s)).Success? && !Rectangular(ParseRows(RowFields(s)).value)
  {
    match ParseRows(RowFields(s))
    case Failure(e) => Failure(e)
    case Success(m) =>
      if Rectangular(m) then Success(m) else Failure(Inhomogeneous)
  }

  /** `",".join(str(v) for v in row)`. */
  function FormatRow(row: seq<int>): string
  {
    Join(seq(|row|, j requires 0 <= j < |row| => FormatInt(row[j])), ',')
  }

  /** `";".join(...)` of the formatted rows: the udev notation of `m`. */
  function FormatMatrix(m: Matrix): string
  {
    Join(seq(|m|, i requires 0 <= i < |m| => FormatRow(m[i])), ';')
  }

  /** A formatted integer contains neither separator. */
  lemma FormatIntHasNoSeparator(n: int)
    ensures ',' !in FormatInt(n) && ';' !in FormatInt(n)
  {
  }

  lemma FormatRowHasNoRowSeparator(row: seq<int>)
    ensures ';' !in FormatRow(row)
  {
    var parts := seq(|row|, j requires 0 <= j < |row| => FormatInt(row[j]));
    if ';' in FormatRow(row) {
      JoinChars(parts, ',', ';');
      var j :| 0 <= j < |parts| && ';' in parts[j];
      FormatIntHasNoSeparator(row[j]);
    }
  }

  /** Parsing the fields of a formatted row gives the row back. */
  lemma ParseFormatRow(row: seq<int>)
    requires |row| >= 1
    ensures ParseFields(Fields(FormatRow(row))) == Success(row)
  {
    var parts := seq(|row|, j requires 0 <= j < |row| => FormatInt(row[j]));
    forall j | 0 <= j < |parts|
      ensures ',' !in parts[j]
    {
      FormatIntHasNoSeparator(row[j]);
    }
    SplitJoin(parts, ',');
    assert Fields(FormatRow(row)) == parts;
    forall j | 0 <= j < |parts|
      ensures ParseInt(parts[j]) == Some(row[j])
    {
      ParseFormatInt(row[j]);
    }
    ParseFieldsOfLiterals(parts, row);
  }

  lemma {:induction false} ParseFieldsOfLiterals(fields: seq<string>, row: seq<int>)
    requires |fields| == |row|
    requires forall j :: 0 <= j < |fields| ==> ParseInt(fields[j]) == Some(row[j])
    ensures ParseFields(fields) == Success(row)
    decreases |fields|
  {
    if |fields| > 0 {
      ParseFieldsOfLiterals(fields[1..], row[1..]);
      assert [row[0]] + row[1..] == row;
    }
  }

  /** Formatting a matrix with non-empty rows and parsing the text gives
      the matrix back when it is rectangular, and is refused as
      inhomogeneous otherwise. */
  lemma ParseFormatMatrix(m: Matrix)
    requires |m| >= 1
    requires forall i :: 0 <= i < |m| ==> |m[i]| >= 1
    ensures ParseMountMatrix(FormatMatrix(m))
         == if Rectangular(m) then Success(m) else Failure(Inhomogeneous)
  {
    var rows := seq(|m|, i requires 0 <= i < |m| => FormatRow(m[i]));
    forall i | 0 <= i < |rows|
      ensures ';' !in rows[i]
    {
      FormatRowHasNoRowSeparator(m[i]);
    }
    SplitJoin(rows, ';');
    assert Rows(FormatMatrix(m)) == rows;
    var fs := RowFields(FormatMatrix(m));
    forall i | 0 <= i < |fs|
      ensures ParseFields(fs[i]) == Success(m[i])
    {
      ParseFormatRow(m[i]);
    }
    ParseRowsOfParsedFields(fs, m);
  }

  lemma {:induction false} ParseRowsOfParsedFields(rows: seq<seq<string>>, m: Matrix)
    requires |rows| == |m|
    requires forall i :: 0 <= i < |rows| ==> ParseFields(rows[i]) == Success(m[i])
    ensures ParseRows(rows) == Success(m)
    decreases |rows|
  {
    if |rows| > 0 {
      ParseRowsOfParsedFields(rows[1..], m[1..]);
      assert [m[0]] + m[1..] == m;
    }
  }

  /** The empty string is not a mount matrix: its one field is empty, and
      `int("")` raises. */
  lemma EmptyStringRefused()
    ensures ParseMountMatrix("") == Failure(InvalidLiteral(""))
  {
    assert Rows("") == [""];
    assert Fields("") == [""];
    assert RowFields("") == [[""]];
  }

  lemma JoinThree(a: string, b: string, c: string, sep: char)
    ensures Join([a, b, c], sep) == a + [sep] + b + [sep] + c
  {
    assert [a, b, c][1..] == [b, c];
    assert [b, c][1..] == [c];
    assert Join([c], sep) == c;
    assert Join([b, c], sep) == b + [sep] + c;
    assert Join([a, b, c], sep) == a + [sep] + (b + [sep] + c);
  }

  /** The identity matrix in udev notation. */
  lemma IdentityParses()
    ensures ParseMountMatrix("1,0,0;0,1,0;0,0,1") == Success([[1, 0, 0], [0, 1, 0], [0, 0, 1]])
  {
    var m: Matrix := [[1, 0, 0], [0, 1, 0], [0, 0, 1]];
    FormatIdentity();
    assert Rectangular(m);
    ParseFormatMatrix(m);
  }

  lemma FormatIdentity()
    ensures FormatMatrix([[1, 0, 0], [0, 1, 0], [0, 0, 1]]) == "1,0,0;0,1,0;0,0,1"
  {
    var m: Matrix := [[1, 0, 0], [0, 1, 0], [0, 0, 1]];
    SmallFormats();
    FormatRowThree(1, 0, 0);
    FormatRowThree(0, 1, 0);
    FormatRowThree(0, 0, 1);
    assert FormatRow(m[0]) == "1,0,0";
    assert FormatRow(m[1]) == "0,1,0";
    assert FormatRow(m[2]) == "0,0,1";
    assert seq(3, i requires 0 <= i < 3 => FormatRow(m[i])) == ["1,0,0", "0,1,0", "0,0,1"];
    JoinThree("1,0,0", "0,1,0", "0,0,1", ';');
  }

  lemma SmallFormats()
    ensures FormatInt(0) == "0" && FormatInt(1) == "1"
  {
    assert DigitChar(0) == '0' && DigitChar(1) == '1';
  }

  lemma FormatRowThree(a: int, b: int, c: int)
    ensures FormatRow([a, b, c]) == FormatInt(a) + [','] + FormatInt(b) + [','] + FormatInt(c)
  {
    assert seq(3, j requires 0 <= j < 3 => FormatInt([a, b, c][j]))
        == [FormatInt(a), FormatInt(b), FormatInt(c)];
    JoinThree(FormatInt(a), FormatInt(b), FormatInt(c), ',');
  }

  lemma SmallLiterals()
    ensures ParseInt("0") == Some(0) && ParseInt("1") == Some(1)
  {
    ParseFormatInt(0);
    ParseFormatInt(1);
    SmallFormats();
  }

  lemma SplitTwo(a: string, b: string, sep: char)
    requires sep !in a && sep !in b
    ensures Split(a + [sep] + b, sep) == [a, b]
  {
    SplitAfterSeparator(a, b, sep);
    SplitNoSeparator(b, sep);
  }

  /** A field that is not an integer refuses the whole matrix, naming it. */
  lemma NonIntegerFieldRefused()
    ensures ParseMountMatrix("1,x;0,1") == Failure(InvalidLiteral("x"))
  {
    SplitTwo("1,x", "0,1", ';');
    assert "1,x;0,1" == "1,x" + [';'] + "0,1";
    SplitTwo("1", "x", ',');
    assert "1,x" == "1" + [','] + "x";
    SmallLiterals();
    assert ParseInt("x") == None;
    assert ParseFields(["1", "x"]) == Failure(InvalidLiteral("x")) by {
      assert ["1", "x"][1..] == ["x"];
    }
  }
}
