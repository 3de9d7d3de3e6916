/** The preview session of the filer UI (the `PreviewUi` class next to the UI
    module): which window shows the preview, what it shows, and the buffers
    it has created. The editor's answers are inputs: the window id the
    preview-window helper returns, the buffer current after rendering, the
    window count, and the buffer and file lookups of `Env`. */
module FilerPreview {
  import opened Wrappers
  import opened Strings
  import opened Items
  import opened IntSets
  import opened Editor

  /** Prefix of every buffer name this version derives. */
  const NamePrefix: string := "ddu-ff:"

  /** `syntaxLimitChars` when the action parameters leave it out. */
  const DefaultSyntaxLimit: int := 400000

  /** The buffer `#getPreviewBuffer` picks: its name and `bufnr(name)`. */
  datatype PreviewBuffer = PreviewBuffer(bufname: string, bufnr: int)

  /** The lines `#getContents` yields, and whether they are the error text. */
  datatype Contents = Contents(err: bool, lines: seq<string>)

  /** Everything `#previewContentsBuffer` decides before it opens the
      window: the buffer looked up by name, whether a fresh scratch buffer is
      made, the buffer then shown, the lines `#getContents` yields (which
      decide the colouring limit), the text written into the shown buffer
      (only a fresh one is written; a reused buffer is shown as it is) and
      its colouring. */
  datatype BufferPlan = BufferPlan(buffer: PreviewBuffer, scratch: bool, shown: int, lines: seq<string>,
                                   written: Option<seq<string>>, look: Look)

  /** How `close` leaves: nothing to do, `popup_close(id)` on a Vim popup, or
      a command in the preview window. */
  datatype CloseAction = KeepOpen | PopupClose(winId: int) | LeaveWindow(leave: WindowCommand)

  /** Does a `useExisting` buffer previewer name its buffer directly? */
  predicate UsesExisting(p: Previewer)
  {
    p.BufferPreviewer? && ExprGiven(p.expr) && p.useExisting
  }

  /** `#getPreviewBuffer`: an existing buffer as named by `expr`, or a name
      under `ddu-ff:` and the number of the buffer of that name. */
  function GetPreviewBuffer(p: Previewer, item: Item, env: Env): (r: PreviewBuffer)
    ensures UsesExisting(p) ==>
      match p.expr.value
      case BufName(s) => r == PreviewBuffer(s, env.bufNr(BufName(s)))
      case BufNumber(n) => r == PreviewBuffer(env.bufName(BufNumber(n)), n)
    ensures !UsesExisting(p) ==>
      |r.bufname| >= |NamePrefix| && r.bufname[..|NamePrefix|] == NamePrefix &&
      r.bufnr == env.bufNr(BufName(r.bufname))
  {
    if UsesExisting(p) then
      match p.expr.value
      case BufName(s) => PreviewBuffer(s, env.bufNr(BufName(s)))
      case BufNumber(n) => PreviewBuffer(env.bufName(BufNumber(n)), n)
    else
      var bufname := NamePrefix + NameSuffix(p, item, env);
      PreviewBuffer(bufname, env.bufNr(BufName(bufname)))
  }

  /** The part of a derived name after `ddu-ff:`. */
  function NameSuffix(p: Previewer, item: Item, env: Env): string
  {
    match p
    case BufferPreviewer(expr, path, _, _, _, _, _) =>
      if ExprGiven(expr) then
        var name := env.bufName(expr.value);
        if name == "" then "no-name:" + RefText(expr.value) else name
      else PathText(path)
    case NoFilePreviewer(_, _, _, _, _) => "preview"
    case TerminalPreviewer(_, _) => item.word
  }

  /** The names by kind: a buffer named by `expr` gives `ddu-ff:<name>`, or
      `ddu-ff:no-name:<expr>` when that buffer has no name; a buffer previewer
      without `expr` gives `ddu-ff:<path>`; a nofile previewer always gives
      `ddu-ff:preview`; any other kind `ddu-ff:<word>`. */
  lemma PreviewBufferNames(p: Previewer, item: Item, env: Env)
    requires !UsesExisting(p)
    ensures var name := GetPreviewBuffer(p, item, env).bufname;
      (p.BufferPreviewer? && ExprGiven(p.expr) && env.bufName(p.expr.value) == "" ==>
         name == NamePrefix + "no-name:" + RefText(p.expr.value)) &&
      (p.BufferPreviewer? && ExprGiven(p.expr) && env.bufName(p.expr.value) != "" ==>
         name == NamePrefix + env.bufName(p.expr.value)) &&
      (p.BufferPreviewer? && !ExprGiven(p.expr) ==> name == NamePrefix + PathText(p.path)) &&
      (p.NoFilePreviewer? ==> name == NamePrefix + "preview") &&
      (p.TerminalPreviewer? ==> name == NamePrefix + item.word)
  {
  }

  /** Two nofile previews share one buffer name whatever the items. */
  lemma NoFileNameShared(p: Previewer, q: Previewer, a: Item, b: Item, env: Env)
    requires p.NoFilePreviewer? && q.NoFilePreviewer?
    ensures GetPreviewBuffer(p, a, env) == GetPreviewBuffer(q, b, env)
  {
  }

  /** `previewer.expr ?? previewer.path`: a present `expr` wins even when it is
      "" or 0. */
  function BufferPath(p: Previewer): Option<BufRef>
    requires p.BufferPreviewer?
  {
    if p.expr.Some? then p.expr
    else if p.path.Some? then Some(BufName(p.path.value)) else None
  }

  /** The buffer-or-file fallback of `#getContents`: the buffer named by
      `expr ?? path` exists. */
  predicate BufferAvailable(env: Env, p: Previewer)
    requires p.BufferPreviewer?
  {
    ExprGiven(BufferPath(p)) && env.bufExists(BufferPath(p).value)
  }

  /** The error text `#getContents` produces when neither the file nor the
      buffer can be read. */
  function ErrorLines(path: Option<string>): seq<string>
  {
    ["Error", "\"" + PathText(path) + "\" cannot be opened."]
  }

  /** `#getContents`: a nofile previewer's own lines; for a buffer previewer
      the file at `path` split on newlines, else the lines of the buffer
      `expr ?? path`, else the error text. */
  function GetContents(p: Previewer, env: Env): (r: Contents)
    requires !p.TerminalPreviewer?
    ensures p.NoFilePreviewer? ==> r == Contents(false, p.contents)
    ensures p.BufferPreviewer? && ReadableFile(env, p.path) ==>
      r == Contents(false, Split(env.stat(p.path.value).value.text, '\n'))
    ensures p.BufferPreviewer? && !ReadableFile(env, p.path) && BufferAvailable(env, p) ==>
      r == Contents(false, env.bufLines(env.bufNr(BufferPath(p).value)))
    ensures r.err <==> p.BufferPreviewer? && !ReadableFile(env, p.path) && !BufferAvailable(env, p)
    ensures r.err ==> r.lines == ErrorLines(p.path)
  {
    match p
    case NoFilePreviewer(contents, _, _, _, _) => Contents(false, contents)
    case BufferPreviewer(_, path, _, _, _, _, _) =>
      if ReadableFile(env, path) then Contents(false, Split(env.stat(path.value).value.text, '\n'))
      else if BufferAvailable(env, p) then Contents(false, env.bufLines(env.bufNr(BufferPath(p).value)))
      else Contents(true, ErrorLines(path))
  }

  /** The error result is exactly two lines, the first of them "Error", and
      only comes when the path is not a readable file. */
  lemma ErrorContentsShape(p: Previewer, env: Env)
    requires p.BufferPreviewer?
    ensures var r := GetContents(p, env);
      r.err ==> |r.lines| == 2 && r.lines[0] == "Error" && ReadableFile(env, p.path) == false
  {
  }

  /** A fresh scratch buffer is made when the contents are the error text,
      when the looked-up buffer does not exist, and always for nofile. */
  predicate FreshBuffer(contents: Contents, found: bool, p: Previewer)
  {
    contents.err || !found || p.NoFilePreviewer?
  }

  /** The colouring: only below the syntax limit (the length of the lines
      joined by newlines, against `syntaxLimitChars`, 400000 by default), an
      explicit filetype is set, or else a buffer previewer's filetype is
      detected, and an explicit syntax is set as well. */
  function LookOf(p: Previewer, lines: seq<string>, params: PreviewParams): (r: Look)
    requires !p.TerminalPreviewer?
    ensures var small := JoinedLength(lines) < params.syntaxLimitChars.GetOr(DefaultSyntaxLimit);
      (r.filetype.Some? || r.detect || r.syntax.Some? ==> small) &&
      (small ==> r.filetype == (if p.filetype != "" then Some(p.filetype) else None)) &&
      (small ==> (r.detect <==> p.filetype == "" && p.BufferPreviewer?)) &&
      (small ==> r.syntax == (if p.syntax != "" then Some(p.syntax) else None))
    ensures !(r.filetype.Some? && r.detect)
  {
    JoinedLengthIsLength(lines, '\n');
    if |Join(lines, '\n')| < params.syntaxLimitChars.GetOr(DefaultSyntaxLimit) then
      Look(if p.filetype != "" then Some(p.filetype) else None,
           p.filetype == "" && p.BufferPreviewer?,
           if p.syntax != "" then Some(p.syntax) else None)
    else Look(None, false, None)
  }

  /** What `#previewContentsBuffer` shows once it has passed the rejection
      test. */
  function PlanBuffer(p: Previewer, item: Item, env: Env, params: PreviewParams): (r: BufferPlan)
    requires !p.TerminalPreviewer? && !Rejected(p)
    ensures r.buffer == GetPreviewBuffer(p, item, env)
    ensures r.lines == GetContents(p, env).lines
    ensures r.scratch <==> FreshBuffer(GetContents(p, env), env.bufExists(BufNumber(r.buffer.bufnr)), p)
    ensures r.shown == if r.scratch then env.bufAdd(r.buffer.bufname) else r.buffer.bufnr
    ensures r.written.Some? <==> r.scratch
    ensures r.written.Some? ==> r.written.value == r.lines
    ensures r.look == LookOf(p, r.lines, params)
  {
    var buffer := GetPreviewBuffer(p, item, env);
    var contents := GetContents(p, env);
    var scratch := FreshBuffer(contents, env.bufExists(BufNumber(buffer.bufnr)), p);
    BufferPlan(buffer, scratch, if scratch then env.bufAdd(buffer.bufname) else buffer.bufnr,
               contents.lines, if scratch then Some(contents.lines) else None, LookOf(p, contents.lines, params))
  }

  /** A nofile preview always writes a fresh buffer, and so does a buffer
      preview whose file and buffer are both missing; an existing buffer is
      reused only for readable content. */
  lemma FreshBufferCases(p: Previewer, item: Item, env: Env, params: PreviewParams)
    requires !p.TerminalPreviewer? && !Rejected(p)
    ensures p.NoFilePreviewer? ==> PlanBuffer(p, item, env, params).scratch
    ensures p.BufferPreviewer? && !ReadableFile(env, p.path) && !BufferAvailable(env, p) ==>
      PlanBuffer(p, item, env, params).scratch && PlanBuffer(p, item, env, params).lines == ErrorLines(p.path)
    ensures !PlanBuffer(p, item, env, params).scratch ==>
      p.BufferPreviewer? && (ReadableFile(env, p.path) || BufferAvailable(env, p))
  {
  }

  /** `#jump`: search for `pattern`, put the cursor on `lineNr`, and centre the
      view (`zv`, `zz`) when either is given. */
  function JumpOf(p: Previewer): (r: Jump)
    ensures r.centre <==> PatternOf(p) != "" || LineNrOf(p) != 0
    ensures r.search == (if PatternOf(p) != "" then Some(PatternOf(p)) else None)
    ensures r.cursor == (if LineNrOf(p) != 0 then Some(LineNrOf(p)) else None)
  {
    var pattern := PatternOf(p);
    var lineNr := LineNrOf(p);
    Jump(if pattern != "" then Some(pattern) else None,
         if lineNr != 0 then Some(lineNr) else None,
         pattern != "" || lineNr != 0)
  }

  /** The centring commands run exactly when the jump moves the cursor. */
  lemma JumpCentresIffMoves(p: Previewer)
    ensures JumpOf(p).centre <==> JumpOf(p).search.Some? || JumpOf(p).cursor.Some?
    ensures p.TerminalPreviewer? ==> JumpOf(p) == Jump(None, None, false)
  {
  }

  /** `&winhighlight` of a floating preview in Neovim. */
  function FloatingHighlight(params: Params, nvim: bool): (r: Option<string>)
    ensures r.Some? <==> params.previewFloating && nvim
    ensures r.Some? ==>
      r.value == "Normal:" + params.highlights.floating.GetOr("NormalFloat") +
                 ",FloatBorder:" + params.highlights.floatingBorder.GetOr("FloatBorder")
  {
    if params.previewFloating && nvim then
      Some("Normal:" + params.highlights.floating.GetOr("NormalFloat") +
           ",FloatBorder:" + params.highlights.floatingBorder.GetOr("FloatBorder"))
    else None
  }

  /** The wipe `removePreviewedBuffers` issues for one buffer: only a buffer
      that still exists and is shown in no window. */
  function WipeUnshown(bufnr: int): string
  {
    WipeUnshownText(IntToString(bufnr))
  }


  function WipeUnshownText(n: string): string
  {
    "if bufexists(" + n + ") && bufwinnr(" + n + ") < 0 | silent bwipeout! " + n + " | endif"
  }

  class PreviewUi {
    /** `#previewWinId`: the preview window, -1 when closed. */
    var previewWinId: int
    /** `#previewedTarget` */
    var previewedTarget: Option<Item>
    /** `#previewedUiParams` */
    var previewedUiParams: Option<Params>
    /** `#previewedBufnrs`: every buffer a preview has shown. */
    var previewedBufnrs: seq<int>

    ghost predicate Valid()
      reads this
    {
      NoDup(previewedBufnrs)
    }

    constructor()
      ensures previewWinId == -1 && previewedTarget == None && previewedUiParams == None
      ensures previewedBufnrs == [] && Valid()
    {
      previewWinId := -1;
      previewedTarget := None;
      previewedUiParams := None;
      previewedBufnrs := [];
    }

    /** `visible()`: a window id is positive; the closed marker -1 is not. */
    predicate Visible()
      reads this
      ensures previewWinId == -1 ==> !Visible()
    {
      previewWinId > 0
    }

    /** `isAlreadyPreviewed(item)`: the window is up and shows an item of the
        same value. Nothing counts as previewed while the window is closed or
        before the first preview. */
    predicate IsAlreadyPreviewed(item: Item)
      reads this
      ensures IsAlreadyPreviewed(item) ==> Visible()
      ensures previewedTarget.None? ==> !IsAlreadyPreviewed(item)
    {
      Visible() && previewedTarget.Some? && SameValue(item, previewedTarget.value)
    }

    /** `isChangedUiParams(params)`: the parameters count as changed before any
        were recorded (`JSON.stringify(undefined)` is no string), and
        otherwise exactly when they differ from the recorded ones. */
    predicate IsChangedUiParams(params: Params)
      reads this
      ensures previewedUiParams.None? ==> IsChangedUiParams(params)
      ensures previewedUiParams.Some? ==> (IsChangedUiParams(params) <==> previewedUiParams.value != params)
    {
      previewedUiParams != Some(params)
    }

    /** A change in a parameter the preview code does not otherwise read,
        such as `previewWidth`, still counts as a change of the parameters. */
    lemma OtherParamChangeNoticed(params: Params, others: seq<(string, string)>)
      requires previewedUiParams == Some(params) && others != params.others
      ensures IsChangedUiParams(params.(others := others))
      ensures !IsChangedUiParams(params)
    {
      assert params.(others := others).others != params.others;
    }

    /** `close`: only a visible preview with other windows beside it is
        closed; everything else is left as it was. `winCount` is
        `winnr("$")`. */
    method Close(context: Context, params: Params, winCount: int, nvim: bool) returns (action: CloseAction)
      modifies this
      ensures old(Visible()) && winCount != 1 ==> previewWinId == -1
      ensures old(Visible()) && winCount != 1 && params.previewFloating && !nvim ==>
        action == PopupClose(old(previewWinId))
      ensures old(Visible()) && winCount != 1 && !(params.previewFloating && !nvim) ==>
        action == LeaveWindow(WindowCommand(old(previewWinId), LeaveCommand(old(previewWinId), context)))
      ensures !(old(Visible()) && winCount != 1) ==> previewWinId == old(previewWinId) && action == KeepOpen
      ensures previewedTarget == old(previewedTarget) && previewedUiParams == old(previewedUiParams)
      ensures previewedBufnrs == old(previewedBufnrs)
    {
      action := KeepOpen;
      if Visible() && winCount != 1 {
        if params.previewFloating && !nvim {
          action := PopupClose(previewWinId);
        } else {
          action := LeaveWindow(WindowCommand(previewWinId, LeaveCommand(previewWinId, context)));
        }
        previewWinId := -1;
      }
    }

    /** `removePreviewedBuffers`: one conditional wipe per recorded buffer, in
        the order they were recorded. The record itself is kept. */
    method RemovePreviewedBuffers() returns (commands: seq<string>)
      ensures commands == CommandsFor(WipeUnshown, previewedBufnrs)
      ensures |commands| == |previewedBufnrs|
      ensures forall i :: 0 <= i < |commands| ==> commands[i] == WipeUnshown(previewedBufnrs[i])
    {
      var bufnrs := previewedBufnrs;
      commands := [];
      for i := 0 to |bufnrs|
        invariant commands == CommandsFor(WipeUnshown, bufnrs[..i])
      {
        assert bufnrs[..i + 1][..i] == bufnrs[..i];
        commands := commands + [WipeUnshown(bufnrs[i])];
      }
      assert bufnrs[..|bufnrs|] == bufnrs;
      CommandsForAt(WipeUnshown, bufnrs);
    }

    /** `execute(command)`: `win_execute` in the preview window, nothing when
        the preview is not visible. */
    method Execute(command: string) returns (r: Option<WindowCommand>)
      ensures r.None? <==> !Visible()
      ensures r.Some? ==> r.value == WindowCommand(previewWinId, command)
    {
      if !Visible() {
        return None;
      }
      r := Some(WindowCommand(previewWinId, command));
    }

    /** `#previewContentsTerminal`: the terminal runs in the preview window,
        opened first when it is not visible. */
    method PreviewContentsTerminal(openedWinId: int) returns (flag: ActionFlag)
      modifies this
      ensures flag == Persist
      ensures previewWinId == if old(Visible()) then old(previewWinId) else openedWinId
      ensures previewedTarget == old(previewedTarget) && previewedUiParams == old(previewedUiParams)
      ensures previewedBufnrs == old(previewedBufnrs)
    {
      if !Visible() {
        previewWinId := openedWinId;
      }
      flag := Persist;
    }

    /** `#previewContentsBuffer`: a rejected previewer changes nothing;
        otherwise the planned buffer is shown in the window the helper
        returns. */
    method PreviewContentsBuffer(p: Previewer, item: Item, env: Env, params: PreviewParams, openedWinId: int)
      returns (flag: ActionFlag, plan: Option<BufferPlan>)
      requires !p.TerminalPreviewer?
      modifies this
      ensures Rejected(p) ==> flag == NoAction && plan == None && previewWinId == old(previewWinId)
      ensures !Rejected(p) ==>
        flag == Persist && plan == Some(PlanBuffer(p, item, env, params)) && previewWinId == openedWinId
      ensures previewedTarget == old(previewedTarget) && previewedUiParams == old(previewedUiParams)
      ensures previewedBufnrs == old(previewedBufnrs)
    {
      if Rejected(p) {
        return NoAction, None;
      }
      plan := Some(PlanBuffer(p, item, env, params));
      previewWinId := openedWinId;
      flag := Persist;
    }

    /** `previewContents`. `havePreviewer` says whether ddu passed a
        `getPreviewer` callback and `previewer` is what it returned;
        `openedWinId` is what the preview-window helper returns,
        `currentBufnr` is `bufnr()` once the preview is drawn and `nvim`
        whether the host is Neovim. A repeated target, a missing callback or
        previewer and a rejected previewer return `None` and change nothing;
        success sets the floating highlight, jumps, records the target, the
        UI parameters and the buffer and returns `Persist`. */
    method PreviewContents(uiParams: Params, params: PreviewParams, item: Item, havePreviewer: bool,
                           previewer: Option<Previewer>, env: Env, openedWinId: int, currentBufnr: int,
                           nvim: bool)
      returns (flag: ActionFlag, plan: Option<BufferPlan>, highlight: Option<string>, jump: Option<Jump>)
      requires Valid()
      modifies this
      ensures Valid()
      ensures flag == NoAction || flag == Persist
      ensures flag == Persist <==>
        !old(IsAlreadyPreviewed(item)) && havePreviewer && previewer.Some? &&
        (previewer.value.TerminalPreviewer? || !Rejected(previewer.value))
      ensures flag == NoAction ==>
        previewWinId == old(previewWinId) && previewedTarget == old(previewedTarget) &&
        previewedUiParams == old(previewedUiParams) && previewedBufnrs == old(previewedBufnrs) && plan == None
      ensures flag == NoAction ==> highlight == None && jump == None
      ensures flag == Persist ==>
        previewedTarget == Some(item) && previewedUiParams == Some(uiParams) &&
        previewedBufnrs == Added(old(previewedBufnrs), currentBufnr)
      ensures flag == Persist ==>
        highlight == FloatingHighlight(uiParams, nvim) && jump == Some(JumpOf(previewer.value))
      ensures flag == Persist && previewer.value.TerminalPreviewer? ==>
        plan == None && previewWinId == if old(Visible()) then old(previewWinId) else openedWinId
      ensures flag == Persist && !previewer.value.TerminalPreviewer? ==>
        plan == Some(PlanBuffer(previewer.value, item, env, params)) && previewWinId == openedWinId
      ensures flag == Persist ==> !IsChangedUiParams(uiParams) && (Visible() ==> IsAlreadyPreviewed(item))
    {
      plan, highlight, jump := None, None, None;
      if IsAlreadyPreviewed(item) || !havePreviewer {
        return NoAction, None, None, None;
      }
      if previewer.None? {
        return NoAction, None, None, None;
      }
      var p := previewer.value;
      if p.TerminalPreviewer? {
        flag := PreviewContentsTerminal(openedWinId);
      } else {
        flag, plan := PreviewContentsBuffer(p, item, env, params, openedWinId);
      }
      if flag == NoAction {
        return;
      }
      highlight := FloatingHighlight(uiParams, nvim);
      jump := Some(JumpOf(p));
      previewedBufnrs := Added(previewedBufnrs, currentBufnr);
      previewedTarget := Some(item);
      previewedUiParams := Some(uiParams);
      flag := Persist;
    }
  }

  /** Item identity plays no part in the repeat test: a copy of the previewed
      item counts as already previewed. */
  lemma AlreadyPreviewedByValue(ui: PreviewUi, a: Item, b: Item)
    requires SameValue(a, b)
    ensures ui.IsAlreadyPreviewed(a) <==> ui.IsAlreadyPreviewed(b)
  {
  }
}
