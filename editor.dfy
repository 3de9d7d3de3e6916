/** What the preview controllers see of the editor and the previewer a source
    hands back: the previewer record, the editor's answers (buffer and file
    lookups) as an oracle, the UI context, and the small decisions both
    controller versions share. */
module Editor {
  import opened Wrappers
  import opened Strings

  /** A buffer as `bufname()`, `bufnr()` and `bufexists()` accept it: a name
      or a number (`string | number`). */
  datatype BufRef = BufName(name: string) | BufNumber(nr: int)

  /** JavaScript truthiness of a buffer reference: not "" and not 0. */
  predicate RefGiven(e: BufRef)
  {
    match e
    case BufName(s) => s != ""
    case BufNumber(n) => n != 0
  }

  /** Truthiness of an optional reference such as `previewer.expr`. */
  predicate ExprGiven(e: Option<BufRef>)
  {
    e.Some? && RefGiven(e.value)
  }

  /** Truthiness of an optional string such as `previewer.path`. */
  predicate PathGiven(p: Option<string>)
  {
    p.Some? && p.value != ""
  }

  /** One command per buffer, in the order the buffers were recorded: what
      the controllers' wipe loops issue. */
  function CommandsFor(command: int -> string, bufnrs: seq<int>): (r: seq<string>)
    ensures |r| == |bufnrs|
  {
    if bufnrs == [] then [] else CommandsFor(command, bufnrs[..|bufnrs| - 1]) + [command(bufnrs[|bufnrs| - 1])]
  }

  /** Each buffer gets exactly its own command, at its own position. */
  lemma {:induction false} CommandsForAt(command: int -> string, bufnrs: seq<int>)
    ensures forall i :: 0 <= i < |bufnrs| ==> CommandsFor(command, bufnrs)[i] == command(bufnrs[i])
  {
    if bufnrs != [] {
      CommandsForAt(command, bufnrs[..|bufnrs| - 1]);
    }
  }

  /** A reference in a template literal. */
  function RefText(e: BufRef): string
  {
    match e
    case BufName(s) => s
    case BufNumber(n) => IntToString(n)
  }

  /** An optional string in a template literal: absent prints "undefined". */
  function PathText(p: Option<string>): string
  {
    p.GetOr("undefined")
  }

  /** What `Deno.stat` reports of a path that exists, with the content that
      `readFileSync` and decoding give for a file. */
  datatype FileInfo = FileInfo(isDirectory: bool, text: string)

  /** A `Previewer` as `getPreviewer` returns it. Optional strings and line
      numbers whose only use is a truthiness test are "" and 0 when absent;
      `expr` and `path` keep their absence, because `??` and the template
      literals tell an absent value from an empty one. */
  datatype Previewer =
    | TerminalPreviewer(cmds: seq<string>, cwd: string)
    | BufferPreviewer(expr: Option<BufRef>, path: Option<string>, useExisting: bool,
                      lineNr: int, pattern: string, syntax: string, filetype: string)
    | NoFilePreviewer(contents: seq<string>, lineNr: int, pattern: string, syntax: string, filetype: string)

  /** The editor's answers, fixed for one preview call: `bufexists`,
      `bufnr`, `bufname`, `buflisted`, `getbufline(nr, 1, "$")`, `Deno.stat`
      (absent when it fails) and `bufadd`. */
  datatype Env = Env(
    bufExists: BufRef -> bool,
    bufNr: BufRef -> int,
    bufName: BufRef -> string,
    bufListed: BufRef -> bool,
    bufLines: int -> seq<string>,
    stat: string -> Option<FileInfo>,
    bufAdd: string -> int)

  /** Is `path` given and a file that `Deno.stat` finds and that is not a
      directory? */
  predicate ReadableFile(env: Env, path: Option<string>)
  {
    PathGiven(path) && env.stat(path.value).Some? && !env.stat(path.value).value.isDirectory
  }

  /** A buffer previewer with neither `expr` nor `path`, or a nofile previewer
      without lines, is turned down before anything is opened. */
  predicate Rejected(p: Previewer)
  {
    (p.NoFilePreviewer? && p.contents == []) ||
    (p.BufferPreviewer? && !ExprGiven(p.expr) && !PathGiven(p.path))
  }

  /** The fields of ddu's `Context` that closing reads. */
  datatype Context = Context(winId: int, bufNr: int, bufName: string)

  /** The action parameters of `preview`. */
  datatype PreviewParams = PreviewParams(syntaxLimitChars: Option<int>)

  /** An Ex command run in a given window. */
  datatype WindowCommand = WindowCommand(winId: int, command: string)

  /** How the buffer is coloured: `&filetype` set, `filetype detect` run,
      `&syntax` set. */
  datatype Look = Look(filetype: Option<string>, detect: bool, syntax: Option<string>)

  /** Where the preview jumps to: a `search(pattern, "w")`, a `cursor(lnum, 0)`,
      and whether `normal! zv` and `normal! zz` follow. */
  datatype Jump = Jump(search: Option<string>, cursor: Option<int>, centre: bool)

  /** The `pattern` and `lineNr` of a previewer: "" and 0 for a terminal
      previewer, which has neither field. */
  function PatternOf(p: Previewer): string
  {
    if p.TerminalPreviewer? then "" else p.pattern
  }

  function LineNrOf(p: Previewer): int
  {
    if p.TerminalPreviewer? then 0 else p.lineNr
  }

  /** The command that leaves the preview window when closing it: when the
      preview took over the UI's own window, show the UI buffer again (a new
      empty buffer when the UI buffer has no name); otherwise `close!`. */
  function LeaveCommand(previewWinId: int, context: Context): (r: string)
    ensures previewWinId != context.winId <==> r == "close!"
    ensures previewWinId == context.winId && context.bufName == "" ==> r == "enew"
    ensures previewWinId == context.winId && context.bufName != "" ==>
      r == "buffer " + IntToString(context.bufNr)
  {
    if previewWinId == context.winId then
      (if context.bufName == "" then "enew" else "buffer " + IntToString(context.bufNr))
    else "close!"
  }
}
