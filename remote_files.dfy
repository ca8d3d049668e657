/**
 * `RemoteFileMetadata`: the name and size of a file in the session's
 * `/mnt/data` directory, read from the `properties` of a JSON object.
 */
module RemoteFiles {
  import opened Wrappers
  import opened Failures
  import opened Json

  /** A member of the top-level object: a scalar, or an object of scalars. */
  datatype Entry = Plain(v: Scalar) | Mapping(fields: map<string, Scalar>)

  /** The two dataclass fields; `Null` is Python's `None`. */
  datatype RemoteFileMetadata = RemoteFileMetadata(filename: Scalar, sizeInBytes: Scalar)

  const DataDirectory: string := "/mnt/data/"

  /**
   * `from_dict`: a missing `properties` member reads as the empty object; a
   * `properties` member that is not an object has no `get`, so the call fails.
   */
  function FromDict(data: map<string, Entry>): (r: Result<RemoteFileMetadata, Failure>)
    ensures r.Err? <==> "properties" in data && data["properties"].Plain?
    ensures r.Err? ==> r.error == NotAMapping
    ensures "properties" !in data ==> r == Ok(RemoteFileMetadata(Null, Null))
    ensures "properties" in data && data["properties"].Mapping? ==>
      var p := data["properties"].fields;
      && r.Ok?
      && r.value.filename == (if "filename" in p then p["filename"] else Null)
      && r.value.sizeInBytes == (if "size" in p then p["size"] else Null)
  {
    var properties := if "properties" in data then data["properties"] else Mapping(map[]);
    match properties
    case Plain(_) => Err(NotAMapping)
    case Mapping(p) => Ok(RemoteFileMetadata(Get(p, "filename"), Get(p, "size")))
  }

  /** The object a session returns for a file: its metadata under `properties`. */
  function ToDict(m: RemoteFileMetadata): (data: map<string, Entry>)
    ensures "properties" in data && data["properties"].Mapping?
  {
    map["properties" := Mapping(map["filename" := m.filename, "size" := m.sizeInBytes])]
  }

  /** Reading back the object built from a file's metadata gives that metadata. */
  lemma FromDictOfToDict(m: RemoteFileMetadata)
    ensures FromDict(ToDict(m)) == Ok(m)
  {
  }

  /** Other members of the object and of its `properties` are ignored. */
  lemma FromDictIgnoresOtherKeys(data: map<string, Entry>, key: string, e: Entry)
    requires key != "properties"
    ensures FromDict(data[key := e]) == FromDict(data)
  {
    assert "properties" in data[key := e] <==> "properties" in data;
    if "properties" in data {
      assert data[key := e]["properties"] == data["properties"];
    }
  }

  /** The decimal digits of a natural number, most significant first. */
  function Digits(n: nat): (ds: string)
    ensures ds != []
    ensures forall k :: 0 <= k < |ds| ==> '0' <= ds[k] <= '9'
    ensures n < 10 <==> |ds| == 1
    ensures 10 <= n ==> ds[0] != '0'
    decreases n
  {
    if n < 10 then ['0' + n as char] else Digits(n / 10) + ['0' + (n % 10) as char]
  }

  /** The number a string of decimal digits denotes. */
  function DigitsValue(ds: string): (n: nat)
    requires forall k :: 0 <= k < |ds| ==> '0' <= ds[k] <= '9'
  {
    if ds == [] then 0 else DigitsValue(ds[..|ds| - 1]) * 10 + (ds[|ds| - 1] - '0') as nat
  }

  /** Reading the digits back gives the number. */
  lemma {:induction false} DigitsRoundTrip(n: nat)
    ensures DigitsValue(Digits(n)) == n
    decreases n
  {
    if n >= 10 {
      var ds := Digits(n);
      assert ds[..|ds| - 1] == Digits(n / 10);
      DigitsRoundTrip(n / 10);
    }
  }

  /** Python's `str` of an integer: its digits, after a `-` when negative. */
  function Decimal(n: int): (s: string)
    ensures s != []
    ensures n < 0 <==> s[0] == '-'
    ensures n >= 0 ==> s == Digits(n)
    ensures n < 0 ==> s[1..] == Digits(-n)
  {
    if n < 0 then "-" + Digits(-n) else Digits(n)
  }

  /** How an f-string shows a field's value. */
  function Display(v: Scalar): (s: string)
    ensures v.Text? ==> s == v.s
    ensures v.Null? ==> s == "None"
    ensures v.Number? ==> s == Decimal(v.n)
    ensures v.Bool? ==> s == (if v.b then "True" else "False")
  {
    match v
    case Null => "None"
    case Bool(b) => if b then "True" else "False"
    case Number(n) => Decimal(n)
    case Text(s) => s
  }

  /** `full_path`: the filename, shown as text, under `/mnt/data/`. */
  function FullPath(m: RemoteFileMetadata): (path: string)
    ensures DataDirectory <= path
    ensures path[|DataDirectory|..] == Display(m.filename)
    ensures m.filename.Text? ==> path == DataDirectory + m.filename.s
  {
    DataDirectory + Display(m.filename)
  }

  /** Two files whose full paths agree have filenames that show alike. */
  lemma FullPathIsInjective(m1: RemoteFileMetadata, m2: RemoteFileMetadata)
    requires FullPath(m1) == FullPath(m2)
    ensures Display(m1.filename) == Display(m2.filename)
    ensures m1.filename.Text? && m2.filename.Text? ==> m1.filename == m2.filename
    ensures m1.filename.Number? && m2.filename.Number? ==> m1.filename == m2.filename
  {
    assert Display(m1.filename) == FullPath(m1)[|DataDirectory|..];
    if m1.filename.Number? && m2.filename.Number? {
      DecimalIsInjective(m1.filename.n, m2.filename.n);
    }
  }

  /** Different numbers have different digits. */
  lemma DigitsAreInjective(x: nat, y: nat)
    requires Digits(x) == Digits(y)
    ensures x == y
  {
    DigitsRoundTrip(x);
    DigitsRoundTrip(y);
  }

  /** Different integers print differently, so numeric filenames give different paths. */
  lemma DecimalIsInjective(a: int, b: int)
    requires Decimal(a) == Decimal(b)
    ensures a == b
  {
    var d := Decimal(a);
    if a < 0 {
      assert Decimal(b)[0] == '-';
      DigitsAreInjective(-a, -b);
    } else {
      assert Decimal(b)[0] != '-';
      DigitsAreInjective(a, b);
    }
  }
}
