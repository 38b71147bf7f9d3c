// The subplot grid of plot_all in process_THF_file.py: how many rows of
// subplots (plots_down) and how many columns (plots_across) the .thf files
// are laid out in.

module Layout {
  import opened Results

  /** int(text): how the typed row count is read, supplied by the caller. */
  type IntParser = string -> Option<int>

  datatype Grid = Grid(down: int, across: int)

  /** np.ceil(a / float(b)) on integers, without rounding. */
  function CeilDiv(a: int, b: int): (r: int)
    requires b != 0
    ensures b > 0 ==> b * r >= a && b * (r - 1) < a
    ensures b < 0 ==> b * r <= a && b * (r - 1) > a
  {
    if b > 0 then -((-a) / b) else -(a / (-b))
  }

  /** The row count plot_all settles on, or the error int() raises: an
      empty entry gives two rows; a single file gives one row whatever was
      typed; otherwise the typed count, capped at the number of files, and
      text int() rejects is an error only then. */
  function ChooseDown(hint: string, n: nat, toInt: IntParser): (r: Result<int>)
    ensures hint == "" ==> r == Ok(2)
    ensures hint != "" && n == 1 ==> r == Ok(1)
    ensures r.Err? <==> hint != "" && n != 1 && toInt(hint).None?
    ensures r.Err? ==> r.error == NotAnInteger
    ensures hint != "" && n >= 1 && toInt(hint).Some? && toInt(hint).value >= 1 ==>
              r.Ok? && 1 <= r.value <= n
    ensures hint != "" && n != 1 && toInt(hint).Some? ==>
              r.Ok? && r.value <= toInt(hint).value && (r.value == n || r.value == toInt(hint).value)
  {
    if hint == "" then Ok(2)
    else if n == 1 then Ok(1)
    else match toInt(hint)
      case None => Err(NotAnInteger)
      case Some(v) => if n < v then Ok(n) else Ok(v)
  }

  /** plots_down and plots_across, or the error raised on the way. The
      division by zero happens exactly when a typed 0 is kept, or when a
      positive count meets an empty directory; with a positive row count
      the grid has room for every file and no column to spare. */
  function PlotGrid(hint: string, n: nat, toInt: IntParser): (r: Result<Grid>)
    ensures r == Err(ZeroDivision) <==>
              hint != "" && n != 1 && toInt(hint).Some? &&
              (toInt(hint).value == 0 || (n == 0 && toInt(hint).value > 0))
    ensures r.Ok? <==> ChooseDown(hint, n, toInt).Ok? && ChooseDown(hint, n, toInt).value != 0
    ensures r.Ok? ==> r.value.down == ChooseDown(hint, n, toInt).value
    ensures r.Ok? && r.value.down > 0 ==>
              r.value.down * r.value.across >= n && r.value.down * (r.value.across - 1) < n
  {
    match ChooseDown(hint, n, toInt)
    case Err(e) => Err(e)
    case Ok(down) => if down == 0 then Err(ZeroDivision) else Ok(Grid(down, CeilDiv(n, down)))
  }

  /** The start of plot_all: plots_down is reassigned through the branch
      chain, then plots_across is computed from it. */
  method PlotsLayout(hint: string, n: nat, toInt: IntParser) returns (r: Result<Grid>)
    ensures r == PlotGrid(hint, n, toInt)
  {
    var plotsDown: int;
    if hint == "" {
      plotsDown := 2;
    } else if n == 1 {
      plotsDown := 1;
    } else {
      var typed := toInt(hint);
      if typed.None? {
        return Err(NotAnInteger);
      }
      if n < typed.value {
        plotsDown := n;
      } else {
        plotsDown := typed.value;
      }
    }
    if plotsDown == 0 {
      return Err(ZeroDivision);
    }
    var plotsAcross := CeilDiv(n, plotsDown);
    r := Ok(Grid(plotsDown, plotsAcross));
  }
}
