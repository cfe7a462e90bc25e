/**
 * Importing a custom level from a text file (persistence/LevelImporter.java): the file must
 * exist and be named *.txt, and its non-blank lines must form a rectangle of at least 10 by 10
 * cells with a 'P' somewhere; an accepted file is loaded without fruit phases. Whether the file
 * exists and what lines it holds are given; reading it is not part of this model.
 */
module LevelImporters {
  import opened Wrappers
  import opened Levels
  import opened LevelLoaders

  /** The smallest number of rows and of columns an imported map may have. */
  const MIN_SIZE := 10

  /** Why a file is refused; each carries the figures its message reports. */
  datatype ImportError =
    | Missing(name: string)                                // "El archivo no existe: " + name
    | NotText                                              // "El archivo debe ser .txt"
    | Empty                                                // "El archivo está vacío"
    | WrongWidth(line: nat, expected: nat, actual: nat)    // "Error en línea %d: esperaba %d caracteres pero tiene %d"
    | TooSmall(rows: nat, cols: nat)                       // "Dimensiones muy pequeñas: %dx%d (mínimo 10x10)"
    | NoPlayer                                             // "El nivel debe tener al menos un jugador (P)"

  /** The name ends in ".txt". */
  predicate IsTextName(name: string) {
    |name| >= 4 && name[|name| - 4..] == ".txt"
  }

  /** The first index from `from` on whose line is not `width` characters long, or |lines| if there is none. */
  function FirstWrongWidth(lines: seq<string>, width: nat, from: nat): (k: nat)
    requires from <= |lines|
    ensures from <= k <= |lines|
    ensures forall i :: from <= i < k ==> |lines[i]| == width
    ensures k < |lines| ==> |lines[k]| != width
    decreases |lines| - from
  {
    if from == |lines| then |lines|
    else if |lines[from]| != width then from
    else FirstWrongWidth(lines, width, from + 1)
  }

  /** Some line holds a 'P' ('Q', though it also makes a player, does not count). */
  predicate HasPlayer(lines: seq<string>) {
    exists i :: 0 <= i < |lines| && 'P' in lines[i]
  }

  /** The first check a map's non-blank lines fail, in the order they are made, or None when it passes them all. */
  function Verdict(lines: seq<string>): Option<ImportError> {
    if |lines| == 0 then Some(Empty)
    else
      var cols := |lines[0]|;
      var k := FirstWrongWidth(lines, cols, 0);
      if k < |lines| then Some(WrongWidth(k + 1, cols, |lines[k]|))
      else if |lines| < MIN_SIZE || cols < MIN_SIZE then Some(TooSmall(|lines|, cols))
      else if !HasPlayer(lines) then Some(NoPlayer)
      else None
  }

  /** A map passes exactly when it has at least 10 rows, every row is as wide as the first, that is at least 10, and some row holds a 'P'. */
  lemma VerdictAccepts(lines: seq<string>)
    ensures Verdict(lines).None? <==>
      && |lines| >= MIN_SIZE && |lines[0]| >= MIN_SIZE
      && (forall i :: 0 <= i < |lines| ==> |lines[i]| == |lines[0]|)
      && HasPlayer(lines)
  {
    if |lines| > 0 {
      var k := FirstWrongWidth(lines, |lines[0]|, 0);
      if k < |lines| {
        assert |lines[k]| != |lines[0]|;
      }
    }
  }

  /** A width error names, counting from 1, the first line whose width differs from the first line's, with both widths. */
  lemma VerdictWrongWidth(lines: seq<string>)
    requires |lines| > 0 && exists i :: 0 <= i < |lines| && |lines[i]| != |lines[0]|
    ensures Verdict(lines).Some? && Verdict(lines).value.WrongWidth?
    ensures var e := Verdict(lines).value;
      && 1 <= e.line <= |lines| && e.expected == |lines[0]| && e.actual == |lines[e.line - 1]| != |lines[0]|
      && forall i :: 0 <= i < e.line - 1 ==> |lines[i]| == |lines[0]|
  {
    var i :| 0 <= i < |lines| && |lines[i]| != |lines[0]|;
    var k := FirstWrongWidth(lines, |lines[0]|, 0);
    assert k <= i;
  }

  /** The size is judged only on rectangular maps, and a player is looked for only on rectangles of at least 10 by 10. */
  lemma VerdictOrder(lines: seq<string>)
    requires |lines| > 0
    ensures Verdict(lines) == Some(TooSmall(|lines|, |lines[0]|)) <==>
      (forall i :: 0 <= i < |lines| ==> |lines[i]| == |lines[0]|) && (|lines| < MIN_SIZE || |lines[0]| < MIN_SIZE)
    ensures Verdict(lines) == Some(NoPlayer) <==>
      && (forall i :: 0 <= i < |lines| ==> |lines[i]| == |lines[0]|)
      && |lines| >= MIN_SIZE && |lines[0]| >= MIN_SIZE && !HasPlayer(lines)
  {
    var k := FirstWrongWidth(lines, |lines[0]|, 0);
    if k < |lines| {
      assert |lines[k]| != |lines[0]|;
    }
  }

  /**
   * A map that passes the checks is parsed into a level, and that level has a player: the 'P'
   * lies within the rectangle, where the loader creates one.
   */
  lemma {:induction false} AcceptedMapsParse(lines: seq<string>)
    requires Verdict(lines).None?
    ensures |lines| > 0 && forall i :: 0 <= i < |lines| ==> |lines[0]| <= |lines[i]|
    ensures |PlayerCells(Scan(lines, |lines|, |lines[0]|))| > 0
  {
    VerdictAccepts(lines);
    var i :| 0 <= i < |lines| && 'P' in lines[i];
    var j :| 0 <= j < |lines[i]| && lines[i][j] == 'P';
    var p := Positions.Position(i, j);
    MapEntities(lines, p);
    assert SpawnOf(lines[i][j]) == PlayerSpawn;
    assert p in PlayerCells(Scan(lines, |lines|, |lines[0]|));
  }

  /** The checks made on a file's lines before it is loaded; the first that fails is reported. */
  method ValidateLevelFile(raw: seq<string>) returns (e: Option<ImportError>)
    ensures e == Verdict(NonBlank(raw))
  {
    var lines := DropBlankLines(raw);
    if |lines| == 0 {
      return Some(Empty);
    }
    var expectedCols := |lines[0]|;
    var expectedRows := |lines|;
    var i := 0;
    while i < |lines|
      invariant i <= |lines|
      invariant FirstWrongWidth(lines, expectedCols, 0) == FirstWrongWidth(lines, expectedCols, i)
    {
      if |lines[i]| != expectedCols {
        return Some(WrongWidth(i + 1, expectedCols, |lines[i]|));
      }
      i := i + 1;
    }
    if expectedRows < MIN_SIZE || expectedCols < MIN_SIZE {
      return Some(TooSmall(expectedRows, expectedCols));
    }
    var hasPlayer := false;
    var k := 0;
    while k < |lines|
      invariant k <= |lines|
      invariant hasPlayer <==> exists m :: 0 <= m < k && 'P' in lines[m]
    {
      if 'P' in lines[k] {
        hasPlayer := true;
        break;
      }
      k := k + 1;
    }
    if !hasPlayer {
      return Some(NoPlayer);
    }
    return None;
  }

  /**
   * Imports the level in a file named name whose lines are raw: a missing file, then a name
   * not ending in ".txt", then a failed check is reported; otherwise the level is loaded from
   * the same lines without fruit phases, and it has a player.
   */
  method ImportFromFile(name: string, fileExists: bool, raw: seq<string>, cherryScore: int)
    returns (r: Result<Level, ImportError>)
    ensures !fileExists ==> r == Err(Missing(name))
    ensures fileExists && !IsTextName(name) ==> r == Err(NotText)
    ensures fileExists && IsTextName(name) && Verdict(NonBlank(raw)).Some? ==> r == Err(Verdict(NonBlank(raw)).value)
    ensures r.Ok? <==> fileExists && IsTextName(name) && Verdict(NonBlank(raw)).None?
    ensures r.Ok? ==> fresh(r.value) && LevelParsed(r.value, NonBlank(raw), [], cherryScore) && |r.value.players| > 0
  {
    if !fileExists {
      return Err(Missing(name));
    }
    if !IsTextName(name) {
      return Err(NotText);
    }
    var problem := ValidateLevelFile(raw);
    if problem.Some? {
      return Err(problem.value);
    }
    AcceptedMapsParse(NonBlank(raw));
    var level := Load(raw, [], cherryScore);
    match level {
      case None =>
        assert false;
      case Some(l) =>
        return Ok(l);
    }
  }
}
