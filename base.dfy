/**
 * Values shared by the schematic model: error kinds, UUIDs, coordinates,
 * identities of objects that live outside the schematic (net signals,
 * component signals, symbol pins, board items) and the attribute map of a
 * serialized XML element.
 */
module Base {

  datatype Option<T> = None | Some(value: T)

  /** LogicError: misuse by the caller (a broken invariant); RuntimeError: bad data. */
  datatype ErrorKind = LogicError | RuntimeError

  datatype Result<T> = Ok(value: T) | Err(error: ErrorKind)

  /** Outcome of an operation that returns nothing but may throw. */
  datatype Status = Success | Failure(error: ErrorKind)

  /** A UUID; the null UUID is what a default-constructed one holds. */
  datatype Uuid = NullUuid | Uuid(bits: nat)

  predicate IsNull(u: Uuid) { u.NullUuid? }

  /** A position in nanometres. */
  datatype Point = Point(x: int, y: int)

  /** An angle in micro-degrees. */
  datatype Angle = Angle(microDegrees: int)

  const DegZero: Angle := Angle(0)

  /** C++ integer division of a 64-bit length: truncates toward zero. */
  function TruncDiv(a: int, n: int): int
    requires n > 0
  {
    if a >= 0 then a / n else -((-a) / n)
  }

  /** The truncated quotient is the multiple of `n` next to `a` on the side of zero. */
  lemma TruncDivBounds(a: int, n: int)
    requires n > 0
    ensures var q := TruncDiv(a, n);
            (a >= 0 ==> 0 <= q && q * n <= a < q * n + n)
            && (a < 0 ==> q <= 0 && q * n - n < a <= q * n)
  {
    var m := if a >= 0 then a else -a;
    var d := m / n;
    DivBounds(m, n);
    if a < 0 {
      assert (-d) * n == -(d * n);
    }
  }

  /** Division of a non-negative number: the quotient is the largest multiple that fits. */
  lemma DivBounds(m: int, n: int)
    requires m >= 0 && n > 0
    ensures m / n >= 0 && (m / n) * n <= m < (m / n) * n + n
  {
    assert m == (m / n) * n + m % n;
  }

  /** Point division by a count, coordinate by coordinate. */
  function DividePoint(p: Point, n: int): Point
    requires n > 0
  {
    Point(TruncDiv(p.x, n), TruncDiv(p.y, n))
  }

  function AddPoints(p: Point, q: Point): Point
  {
    Point(p.x + q.x, p.y + q.y)
  }

  /** Identity of the schematic page an item was created for. */
  datatype SheetId = SheetId(id: nat)

  /** Identities of circuit objects (owned by the circuit, not by a schematic). */
  datatype NetSignal = NetSignal(id: nat)
  datatype ComponentSignal = ComponentSignal(id: nat)
  datatype Component = Component(id: nat)
  datatype NetClass = NetClass(id: nat)

  /**
   * A pin of a placed symbol, identified by its object identity; it knows
   * the UUID of its symbol, the library pin UUID and its schematic page.
   */
  datatype SymbolPin = SymbolPin(id: nat, symbolUuid: Uuid, libPinUuid: Uuid, sheet: SheetId)

  /** Identities of board objects. */
  datatype BoardNetPoint = BoardNetPoint(id: nat)
  datatype BoardNetLine = BoardNetLine(id: nat)
  datatype Via = Via(id: nat)
  datatype FootprintPad = FootprintPad(id: nat)
  datatype Device = Device(id: nat)

  /** A typed XML attribute value and an element as a name plus its attributes. */
  datatype XmlValue = UuidValue(u: Uuid) | BoolValue(b: bool) | LengthValue(len: int) | AngleValue(angle: Angle)

  datatype XmlElement = XmlElement(name: string, attributes: map<string, XmlValue>)

  /** A required attribute of the given type; missing or ill-typed is a file error. */
  function GetUuid(e: XmlElement, key: string): (r: Result<Uuid>)
    ensures r.Ok? <==> key in e.attributes && e.attributes[key].UuidValue?
    ensures r.Ok? ==> e.attributes[key] == UuidValue(r.value)
    ensures r.Err? ==> r.error == RuntimeError
  {
    if key in e.attributes && e.attributes[key].UuidValue? then Ok(e.attributes[key].u) else Err(RuntimeError)
  }

  function GetBool(e: XmlElement, key: string): (r: Result<bool>)
    ensures r.Ok? <==> key in e.attributes && e.attributes[key].BoolValue?
    ensures r.Ok? ==> e.attributes[key] == BoolValue(r.value)
    ensures r.Err? ==> r.error == RuntimeError
  {
    if key in e.attributes && e.attributes[key].BoolValue? then Ok(e.attributes[key].b) else Err(RuntimeError)
  }

  function GetLength(e: XmlElement, key: string): (r: Result<int>)
    ensures r.Ok? <==> key in e.attributes && e.attributes[key].LengthValue?
    ensures r.Ok? ==> e.attributes[key] == LengthValue(r.value)
    ensures r.Err? ==> r.error == RuntimeError
  {
    if key in e.attributes && e.attributes[key].LengthValue? then Ok(e.attributes[key].len) else Err(RuntimeError)
  }

  function GetAngle(e: XmlElement, key: string): (r: Result<Angle>)
    ensures r.Ok? <==> key in e.attributes && e.attributes[key].AngleValue?
    ensures r.Ok? ==> e.attributes[key] == AngleValue(r.value)
    ensures r.Err? ==> r.error == RuntimeError
  {
    if key in e.attributes && e.attributes[key].AngleValue? then Ok(e.attributes[key].angle) else Err(RuntimeError)
  }

  /** No element occurs twice. */
  predicate Distinct<T(==)>(s: seq<T>)
  {
    forall i, j :: 0 <= i < j < |s| ==> s[i] != s[j]
  }

  /** Appending a new element keeps a list repeat-free. */
  lemma DistinctSnoc<T>(s: seq<T>, x: T)
    requires Distinct(s) && x !in s
    ensures Distinct(s + [x])
  {
    forall i, j | 0 <= i < j < |s + [x]| ensures (s + [x])[i] != (s + [x])[j] {
      assert (s + [x])[i] == s[i];
      if j == |s| { assert s[i] in s; } else { assert (s + [x])[j] == s[j]; }
    }
  }

  /** Dropping the last element of a list without repeats. */
  lemma DistinctFront<T>(xs: seq<T>)
    requires Distinct(xs) && xs != []
    ensures Distinct(xs[..|xs| - 1]) && xs[|xs| - 1] !in xs[..|xs| - 1]
  {
    var n := |xs| - 1;
    forall i, j | 0 <= i < j < n ensures xs[..n][i] != xs[..n][j] {
      assert xs[..n][i] == xs[i] && xs[..n][j] == xs[j];
    }
    forall k | 0 <= k < n ensures xs[..n][k] != xs[n] {
      assert xs[..n][k] == xs[k];
    }
  }

  function Elements<T>(s: seq<T>): set<T>
  {
    set x | x in s
  }

  /** Concatenation is associative. */
  lemma ConcatAssoc<T>(a: seq<T>, b: seq<T>, c: seq<T>)
    ensures (a + b) + c == a + (b + c)
  {
  }
}
