/**
 * The `Well` object and the script that fills it: build a well from the NAME and
 * FIELD the reader found, copy every other attribute onto it, and turn the cells of
 * the log table that equal the well's NULL value into missing values.
 */
module WellModel {
  import opened Wrappers
  import opened PyFloat
  import opened LasReader
  import opened LasProperties

  /** The placeholder `Well.__init__` gives every numeric attribute. */
  const Unset: Num := Finite(-999.0)

  /** What a new well holds for an attribute other than NAME and FIELD: -999, or 1900-01-01 for DATE. */
  function Default(a: Attr): (v: Value)
    ensures a == Date <==> v.Timestamp?
  {
    if a == Date then Timestamp(1900, 1, 1) else Number(Unset)
  }

  /**
   * A well. Python keeps its attributes untyped, so each one holds a `Value`; `field`
   * is the attribute the parent class `Field` sets, and the log table is a grid of
   * floats together with its column names.
   */
  class Well {
    var field: Value
    var name: Value
    var start: Value
    var stop: Value
    var step: Value
    var nullValue: Value
    var kb: Value
    var gl: Value
    var date: Value
    var xcoord: Value
    var ycoord: Value
    var lati: Value
    var long: Value
    var logNames: seq<string>
    var logs: array2<Num>

    /** The attribute the reader calls `a`. */
    function Get(a: Attr): Value
      reads this
    {
      match a
      case Start => start
      case Stop => stop
      case Step => step
      case Null => nullValue
      case Date => date
      case Name => name
      case Field => field
      case Long => long
      case Lati => lati
      case XCoord => xcoord
      case YCoord => ycoord
      case KB => kb
      case GL => gl
    }

    /** `Well(well_name, field_name)`: the two names, every other attribute at its default, no logs. */
    constructor(wellName: Value, fieldName: Value)
      ensures Get(Name) == wellName && Get(Field) == fieldName
      ensures forall a :: a != Name && a != Field ==> Get(a) == Default(a)
      ensures logNames == [] && logs.Length0 == 0 && logs.Length1 == 0
    {
      field := fieldName;
      name := wellName;
      start := Number(Unset);
      stop := Number(Unset);
      step := Number(Unset);
      nullValue := Number(Unset);
      kb := Number(Unset);
      gl := Number(Unset);
      date := Timestamp(1900, 1, 1);
      xcoord := Number(Unset);
      ycoord := Number(Unset);
      lati := Number(Unset);
      long := Number(Unset);
      logNames := [];
      logs := new Num[0, 0];
    }

    /** `setattr(well, a, v)`: attribute `a` becomes `v` and nothing else changes. */
    method SetAttr(a: Attr, v: Value)
      modifies this
      ensures Get(a) == v
      ensures forall b :: b != a ==> Get(b) == old(Get(b))
      ensures logNames == old(logNames) && logs == old(logs)
    {
      match a
      case Start => start := v;
      case Stop => stop := v;
      case Step => step := v;
      case Null => nullValue := v;
      case Date => date := v;
      case Name => name := v;
      case Field => field := v;
      case Long => long := v;
      case Lati => lati := v;
      case XCoord => xcoord := v;
      case YCoord => ycoord := v;
      case KB => kb := v;
      case GL => gl := v;
    }
  }

  /**
   * The `setattr` loop: every key of the dictionary except NAME and FIELD is copied
   * onto the well; every other attribute keeps what it had.
   */
  method AssignAttributes(well: Well, props: Header)
    modifies well
    ensures forall a :: well.Get(a) == if a in props && a != Name && a != Field then props[a] else old(well.Get(a))
    ensures well.logNames == old(well.logNames) && well.logs == old(well.logs)
  {
    var keys := props.Keys;
    while keys != {}
      invariant keys <= props.Keys
      invariant forall a ::
        well.Get(a) == if a in props && a !in keys && a != Name && a != Field then props[a] else old(well.Get(a))
      invariant well.logNames == old(well.logNames) && well.logs == old(well.logs)
      decreases keys
    {
      var aKey :| aKey in keys;
      if aKey != Name && aKey != Field {
        well.SetAttr(aKey, props[aKey]);
      }
      keys := keys - {aKey};
    }
  }

  /**
   * What `replace(NULL, nan)` makes of one cell: the cell or NaN, never a value equal
   * to NULL, and only a cell equal to NULL changes.
   */
  function NullToMissing(c: Num, nullValue: Num): (r: Num)
    ensures r == c || r == NaN
    ensures !Eq(r, nullValue)
    ensures r != c ==> Eq(c, nullValue)
  {
    if Eq(c, nullValue) then NaN else c
  }

  /** No cell equals NULL once it has been replaced, and replacing twice changes nothing more. */
  lemma NullToMissingSettles(c: Num, nullValue: Num)
    ensures !Eq(NullToMissing(c, nullValue), nullValue)
    ensures NullToMissing(NullToMissing(c, nullValue), nullValue) == NullToMissing(c, nullValue)
  {
  }

  /** `df.replace(NULL, np.nan, inplace=True)` on the cells of the log table. */
  method ReplaceNull(cells: array2<Num>, nullValue: Num)
    modifies cells
    ensures forall i, j :: 0 <= i < cells.Length0 && 0 <= j < cells.Length1 ==>
      cells[i, j] == NullToMissing(old(cells[i, j]), nullValue)
  {
    for i := 0 to cells.Length0
      invariant forall r, j :: 0 <= r < i && 0 <= j < cells.Length1 ==>
        cells[r, j] == NullToMissing(old(cells[r, j]), nullValue)
      invariant forall r, j :: i <= r < cells.Length0 && 0 <= j < cells.Length1 ==>
        cells[r, j] == old(cells[r, j])
    {
      for j := 0 to cells.Length1
        invariant forall r, k :: 0 <= r < i && 0 <= k < cells.Length1 ==>
          cells[r, k] == NullToMissing(old(cells[r, k]), nullValue)
        invariant forall k :: 0 <= k < j ==> cells[i, k] == NullToMissing(old(cells[i, k]), nullValue)
        invariant forall r, k :: (i < r < cells.Length0 || (r == i && j <= k)) && 0 <= k < cells.Length1 ==>
          cells[r, k] == old(cells[r, k])
      {
        cells[i, j] := NullToMissing(cells[i, j], nullValue);
      }
    }
  }

  /** What goes wrong while loading a well. */
  datatype LoadError =
    | Read(e: ReadError)     // raised inside `read_las`
    | MissingKey(a: Attr)    // `well_props["NAME"]` or `well_props["FIELD"]`: KeyError

  /** The value a loaded well holds for `a`: what the file says, else the default. */
  function LoadedValue(props: Header, a: Attr): Value {
    if a in props then props[a] else Default(a)
  }

  /**
   * The script around `read_las`: read the file, build the well, copy the attributes,
   * replace NULL in the log table (whose parsed cells are given) and attach it.
   */
  method LoadWell(lines: seq<string>, cells: array2<Num>) returns (r: Result<Well, LoadError>)
    modifies cells
    ensures |lines| == 0 ==> r == Failure(Read(EmptyFile))
    ensures |lines| > 0 ==>
      var names := LogNames(lines[StartLogIndex(lines)]);
      |names| != cells.Length1 ==> r == Failure(Read(ColumnMismatch(|names|, cells.Length1)))
    ensures r.Success? <==>
      && |lines| > 0
      && |LogNames(lines[StartLogIndex(lines)])| == cells.Length1
      && Name in HeaderOf(lines) && Field in HeaderOf(lines)
    ensures r.Failure? && r.error.MissingKey? ==>
      r.error == MissingKey(if Name !in HeaderOf(lines) then Name else Field)
    ensures r.Failure? && |lines| > 0 && |LogNames(lines[StartLogIndex(lines)])| == cells.Length1 ==>
      r.error == MissingKey(if Name !in HeaderOf(lines) then Name else Field)
    ensures r.Failure? ==> forall i, j :: 0 <= i < cells.Length0 && 0 <= j < cells.Length1 ==>
      cells[i, j] == old(cells[i, j])
    ensures r.Success? ==>
      && fresh(r.value)
      && (forall a :: r.value.Get(a) == LoadedValue(HeaderOf(lines), a))
      && r.value.Get(Null).Number?
      && r.value.logNames == LogNames(lines[StartLogIndex(lines)])
      && r.value.logs == cells
      && forall i, j :: 0 <= i < cells.Length0 && 0 <= j < cells.Length1 ==>
           cells[i, j] == NullToMissing(old(cells[i, j]), r.value.Get(Null).n)
  {
    var las := ReadLas(lines, cells.Length1);
    if las.Failure? {
      return Failure(Read(las.error));
    }
    HeaderWellTyped(lines);
    r := BuildWell(las.value.wellDict, las.value.logNames, cells);
  }

  /**
   * Everything after `read_las` returned: `Well(props["NAME"], props["FIELD"])`, the
   * `setattr` loop, and the NULL replacement on the log table.
   */
  method BuildWell(props: Header, logNames: seq<string>, cells: array2<Num>) returns (r: Result<Well, LoadError>)
    requires WellTyped(props)
    modifies cells
    ensures r.Success? <==> Name in props && Field in props
    ensures r.Failure? ==> r.error == MissingKey(if Name !in props then Name else Field)
    ensures r.Failure? ==> forall i, j :: 0 <= i < cells.Length0 && 0 <= j < cells.Length1 ==>
      cells[i, j] == old(cells[i, j])
    ensures r.Success? ==>
      && fresh(r.value)
      && (forall a :: r.value.Get(a) == LoadedValue(props, a))
      && r.value.Get(Null).Number?
      && r.value.logNames == logNames
      && r.value.logs == cells
      && forall i, j :: 0 <= i < cells.Length0 && 0 <= j < cells.Length1 ==>
           cells[i, j] == NullToMissing(old(cells[i, j]), r.value.Get(Null).n)
  {
    if Name !in props {
      return Failure(MissingKey(Name));
    }
    if Field !in props {
      return Failure(MissingKey(Field));
    }
    var well := new Well(props[Name], props[Field]);
    AssignAttributes(well, props);
    assert well.Get(Null) == LoadedValue(props, Null);
    ReplaceNull(cells, well.nullValue.n);
    well.logNames := logNames;
    well.logs := cells;
    return Success(well);
  }
}
