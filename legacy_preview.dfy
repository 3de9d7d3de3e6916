/** The older preview session of the filer (the `PreviewUi` class of the
    `@ddu-ui-filer` directory). Unlike the newer one, previewing the same
    target again closes the preview, contents prefer a listed buffer over the
    file, buffers are only filled when they are new, and the terminal buffer
    is tracked so that the next terminal preview can wipe it. */
module LegacyPreview {
  import opened Wrappers
  import opened Strings
  import opened Items
  import opened IntSets
  import opened Editor

  /** Prefix of every buffer name this version derives. */
  const NamePrefix: string := "ddu-filer:"

  /** `syntaxLimitChars` when the action parameters leave it out. */
  const DefaultSyntaxLimit: int := 200000

  /** What `previewContentsBuffer` does once the window is there: the buffer
      name it edits, whether that buffer already existed (then it is only
      shown), the text written into a new buffer and its colouring, and
      whether `previewwindow` is set. */
  datatype BufferPlan = BufferPlan(bufname: string, found: bool, text: Option<seq<string>>,
                                   look: Option<Look>, previewWindow: bool)

  /** The part of a derived name after `ddu-filer:`. */
  function NameSuffix(p: Previewer, item: Item, env: Env): string
  {
    match p
    case BufferPreviewer(expr, path, _, _, _, _, _) =>
      if ExprGiven(expr) then
        var name := env.bufName(expr.value);
        if name == "" then "no-name:" + RefText(expr.value) else name
      else PathText(path)
    case _ => item.word
  }

  /** `getPreviewBufferName`: every name lies under `ddu-filer:`. */
  function GetPreviewBufferName(p: Previewer, item: Item, env: Env): (r: string)
    ensures |r| >= |NamePrefix| && r[..|NamePrefix|] == NamePrefix
    ensures r[|NamePrefix|..] == NameSuffix(p, item, env)
  {
    NamePrefix + NameSuffix(p, item, env)
  }

  /** The names by kind: a buffer named by `expr` gives `ddu-filer:<name>`, or
      `ddu-filer:no-name:<expr>` when that buffer has no name; a buffer
      previewer without `expr` gives `ddu-filer:<path>`; every other kind
      `ddu-filer:<word>`. */
  lemma LegacyBufferNames(p: Previewer, item: Item, env: Env)
    ensures var name := GetPreviewBufferName(p, item, env);
      (p.BufferPreviewer? && ExprGiven(p.expr) && env.bufName(p.expr.value) == "" ==>
         name == NamePrefix + "no-name:" + RefText(p.expr.value)) &&
      (p.BufferPreviewer? && ExprGiven(p.expr) && env.bufName(p.expr.value) != "" ==>
         name == NamePrefix + env.bufName(p.expr.value)) &&
      (p.BufferPreviewer? && !ExprGiven(p.expr) ==> name == NamePrefix + PathText(p.path)) &&
      (!p.BufferPreviewer? ==> name == NamePrefix + item.word)
  {
  }

  /** Is `expr` given and a listed buffer? */
  predicate ListedExpr(env: Env, p: Previewer)
    requires p.BufferPreviewer?
  {
    ExprGiven(p.expr) && env.bufListed(p.expr.value)
  }

  /** `getContents`: a nofile previewer's own lines; for a buffer previewer the
      lines of the listed buffer `expr`, else the file at `path` split on
      newlines, else nothing. */
  function GetContents(p: Previewer, env: Env): (r: seq<string>)
    requires !p.TerminalPreviewer?
    ensures p.NoFilePreviewer? ==> r == p.contents
    ensures p.BufferPreviewer? && ListedExpr(env, p) ==> r == env.bufLines(env.bufNr(p.expr.value))
    ensures p.BufferPreviewer? && !ListedExpr(env, p) && ReadableFile(env, p.path) ==>
      r == Split(env.stat(p.path.value).value.text, '\n')
    ensures p.BufferPreviewer? && !ListedExpr(env, p) && !ReadableFile(env, p.path) ==> r == []
  {
    match p
    case NoFilePreviewer(contents, _, _, _, _) => contents
    case BufferPreviewer(expr, path, _, _, _, _, _) =>
      if ListedExpr(env, p) then env.bufLines(env.bufNr(expr.value))
      else if ReadableFile(env, path) then Split(env.stat(path.value).value.text, '\n')
      else []
  }

  /** The colouring of a new buffer: only below the syntax limit (the length
      of the text joined by newlines, against `syntaxLimitChars`, 200000 by
      default), an explicit syntax is set, or else a buffer previewer's
      filetype is detected. This version never sets `&filetype`. */
  function LookOf(p: Previewer, text: seq<string>, params: PreviewParams): (r: Look)
    requires !p.TerminalPreviewer?
    ensures r.filetype == None
    ensures var small := JoinedLength(text) < params.syntaxLimitChars.GetOr(DefaultSyntaxLimit);
      (r.detect || r.syntax.Some? ==> small) &&
      (small ==> r.syntax == (if p.syntax != "" then Some(p.syntax) else None)) &&
      (small ==> (r.detect <==> p.syntax == "" && p.BufferPreviewer?))
    ensures !(r.detect && r.syntax.Some?)
  {
    JoinedLengthIsLength(text, '\n');
    if |Join(text, '\n')| < params.syntaxLimitChars.GetOr(DefaultSyntaxLimit) then
      if p.syntax != "" then Look(None, false, Some(p.syntax))
      else Look(None, p.BufferPreviewer?, None)
    else Look(None, false, None)
  }

  /** What `previewContentsBuffer` shows once it has passed the rejection
      test and has a window: an existing buffer of the derived name is shown
      as it is; a new one is filled with the contents and coloured. */
  function PlanBuffer(p: Previewer, item: Item, env: Env, params: PreviewParams, uiParams: Params): (r: BufferPlan)
    requires !p.TerminalPreviewer? && !Rejected(p)
    ensures r.bufname == GetPreviewBufferName(p, item, env)
    ensures r.found == env.bufExists(BufName(r.bufname))
    ensures r.found ==> r.text == None && r.look == None
    ensures !r.found ==> r.text == Some(GetContents(p, env)) && r.look == Some(LookOf(p, GetContents(p, env), params))
    ensures r.previewWindow <==> uiParams.previewSplit != "no"
  {
    var bufname := GetPreviewBufferName(p, item, env);
    var found := env.bufExists(BufName(bufname));
    var text := GetContents(p, env);
    BufferPlan(bufname, found, if found then None else Some(text),
               if found then None else Some(LookOf(p, text, params)), uiParams.previewSplit != "no")
  }

  /** `jump`: search for `pattern`, put the cursor on `lineNr`; the view is
      centred only along with the cursor move. */
  function JumpOf(p: Previewer): (r: Jump)
    ensures r.search == (if PatternOf(p) != "" then Some(PatternOf(p)) else None)
    ensures r.cursor == (if LineNrOf(p) != 0 then Some(LineNrOf(p)) else None)
    ensures r.centre <==> r.cursor.Some?
  {
    Jump(if PatternOf(p) != "" then Some(PatternOf(p)) else None,
         if LineNrOf(p) != 0 then Some(LineNrOf(p)) else None,
         LineNrOf(p) != 0)
  }

  /** `&winhighlight` of a floating preview, in Vim as in Neovim. */
  function FloatingHighlight(params: Params): (r: Option<string>)
    ensures r.Some? <==> params.previewFloating
    ensures r.Some? ==> r.value == "Normal:" + params.highlights.floating.GetOr("NormalFloat")
  {
    if params.previewFloating then Some("Normal:" + params.highlights.floating.GetOr("NormalFloat")) else None
  }

  /** The wipe `close` issues for one buffer: only a listed buffer. */
  function WipeListed(bufnr: int): string
  {
    WipeListedText(IntToString(bufnr))
  }


  function WipeListedText(n: string): string
  {
    "if buflisted(" + n + ") | silent bwipeout! " + n + " | endif"
  }

  class PreviewUi {
    /** `previewWinId`: the preview window, -1 when closed. */
    var previewWinId: int
    /** `terminalBufnr`: the buffer the next terminal preview wipes, -1 for none. */
    var terminalBufnr: int
    /** `previewedTarget` */
    var previewedTarget: Option<Item>
    /** `previewBufnrs`: every buffer a preview has shown. */
    var previewBufnrs: seq<int>

    ghost predicate Valid()
      reads this
    {
      NoDup(previewBufnrs)
    }

    constructor()
      ensures previewWinId == -1 && terminalBufnr == -1 && previewedTarget == None
      ensures previewBufnrs == [] && Valid()
    {
      previewWinId := -1;
      terminalBufnr := -1;
      previewedTarget := None;
      previewBufnrs := [];
    }

    /** The toggle test of `previewContents`: a window is open and shows an
        item of the same value. */
    predicate SameTarget(item: Item)
      reads this
      ensures SameTarget(item) ==> previewWinId > 0 && previewedTarget.Some?
      ensures previewedTarget.None? || previewWinId == -1 ==> !SameTarget(item)
    {
      previewWinId > 0 && previewedTarget.Some? && SameValue(item, previewedTarget.value)
    }

    /** `close`: the window is left only when it is open and not the last
        one; a wipe of every recorded buffer is attempted in any case, and
        the record is kept. */
    method Close(context: Context, winCount: int) returns (leave: Option<WindowCommand>, wipes: seq<string>)
      modifies this
      ensures old(previewWinId) > 0 && winCount != 1 ==>
        previewWinId == -1 && leave == Some(WindowCommand(old(previewWinId), LeaveCommand(old(previewWinId), context)))
      ensures !(old(previewWinId) > 0 && winCount != 1) ==> previewWinId == old(previewWinId) && leave == None
      ensures |wipes| == |previewBufnrs|
      ensures forall i :: 0 <= i < |wipes| ==> wipes[i] == WipeListed(previewBufnrs[i])
      ensures terminalBufnr == old(terminalBufnr) && previewedTarget == old(previewedTarget)
      ensures previewBufnrs == old(previewBufnrs)
    {
      leave := None;
      if previewWinId > 0 && winCount != 1 {
        leave := Some(WindowCommand(previewWinId, LeaveCommand(previewWinId, context)));
        previewWinId := -1;
      }
      wipes := WipeRecorded();
    }

    /** The loop at the end of `close`: one wipe per recorded buffer, in the
        order they were recorded. */
    method WipeRecorded() returns (wipes: seq<string>)
      ensures wipes == CommandsFor(WipeListed, previewBufnrs)
      ensures |wipes| == |previewBufnrs|
      ensures forall i :: 0 <= i < |wipes| ==> wipes[i] == WipeListed(previewBufnrs[i])
    {
      var bufnrs := previewBufnrs;
      wipes := [];
      for i := 0 to |bufnrs|
        invariant wipes == CommandsFor(WipeListed, bufnrs[..i])
      {
        assert bufnrs[..i + 1][..i] == bufnrs[..i];
        wipes := wipes + [WipeListed(bufnrs[i])];
      }
      assert bufnrs[..|bufnrs|] == bufnrs;
      CommandsForAt(WipeListed, bufnrs);
    }

    /** `previewContentsTerminal`: a window is opened only when there is none
        (`openedWinId` is `win_getid()` after opening); after the terminal
        starts, a recorded terminal buffer is wiped and forgotten. */
    method PreviewContentsTerminal(openedWinId: int) returns (flag: ActionFlag, wiped: Option<int>)
      modifies this
      ensures flag == Persist
      ensures previewWinId == if old(previewWinId) < 0 then openedWinId else old(previewWinId)
      ensures old(terminalBufnr) > 0 ==> wiped == Some(old(terminalBufnr)) && terminalBufnr == -1
      ensures old(terminalBufnr) <= 0 ==> wiped == None && terminalBufnr == old(terminalBufnr)
      ensures previewedTarget == old(previewedTarget) && previewBufnrs == old(previewBufnrs)
    {
      if previewWinId < 0 {
        previewWinId := openedWinId;
      }
      wiped := None;
      if terminalBufnr > 0 {
        wiped := Some(terminalBufnr);
        terminalBufnr := -1;
      }
      flag := Persist;
    }

    /** `previewContentsBuffer`: a rejected previewer, and a failure to open
        the window when there is none (`openFails`), return `None` and leave
        the state as it was. */
    method PreviewContentsBuffer(p: Previewer, item: Item, env: Env, params: PreviewParams, uiParams: Params,
                                 openFails: bool, openedWinId: int)
      returns (flag: ActionFlag, plan: Option<BufferPlan>)
      requires !p.TerminalPreviewer?
      modifies this
      ensures Rejected(p) || (old(previewWinId) < 0 && openFails) ==>
        flag == NoAction && plan == None && previewWinId == old(previewWinId)
      ensures !Rejected(p) && !(old(previewWinId) < 0 && openFails) ==>
        flag == Persist && plan == Some(PlanBuffer(p, item, env, params, uiParams)) &&
        previewWinId == if old(previewWinId) < 0 then openedWinId else old(previewWinId)
      ensures terminalBufnr == old(terminalBufnr) && previewedTarget == old(previewedTarget)
      ensures previewBufnrs == old(previewBufnrs)
    {
      if Rejected(p) {
        return NoAction, None;
      }
      if previewWinId < 0 {
        if openFails {
          return NoAction, None;
        }
        previewWinId := openedWinId;
      }
      plan := Some(PlanBuffer(p, item, env, params, uiParams));
      flag := Persist;
    }

    /** `previewContents`. `bufnr` is the UI's buffer as the caller passes it,
        `previewer` what `ddu#get_previewer` returned, `winCount` is
        `winnr("$")`, `openFails` whether opening a buffer preview window
        throws, `openedWinId` the window current after opening, and
        `currentBufnr` is `bufnr()` once the preview is drawn. `wipes` are the
        buffer wipes issued; a success also sets the floating highlight and
        jumps. */
    method PreviewContents(context: Context, params: PreviewParams, uiParams: Params, bufnr: int, item: Item,
                           previewer: Option<Previewer>, env: Env, winCount: int, openFails: bool,
                           openedWinId: int, currentBufnr: int)
      returns (flag: ActionFlag, wipes: seq<string>, plan: Option<BufferPlan>, highlight: Option<string>,
               jump: Option<Jump>)
      requires Valid()
      modifies this
      ensures Valid()
      ensures flag == NoAction || flag == Persist
      ensures old(SameTarget(item)) ==>
        flag == NoAction && plan == None &&
        previewWinId == (if winCount != 1 then -1 else old(previewWinId)) &&
        |wipes| == |previewBufnrs| && (forall i :: 0 <= i < |wipes| ==> wipes[i] == WipeListed(previewBufnrs[i]))
      ensures flag == Persist <==>
        !old(SameTarget(item)) && previewer.Some? &&
        (previewer.value.TerminalPreviewer? ||
         (!Rejected(previewer.value) && !(old(previewWinId) < 0 && openFails)))
      ensures flag == NoAction && !old(SameTarget(item)) ==>
        previewWinId == old(previewWinId) && wipes == [] && plan == None
      ensures flag == NoAction ==>
        terminalBufnr == old(terminalBufnr) && previewedTarget == old(previewedTarget) &&
        previewBufnrs == old(previewBufnrs) && highlight == None && jump == None
      ensures flag == Persist ==> highlight == FloatingHighlight(uiParams) && jump == Some(JumpOf(previewer.value))
      ensures flag == Persist ==>
        previewedTarget == Some(item) && previewBufnrs == Added(old(previewBufnrs), currentBufnr) &&
        previewWinId == (if old(previewWinId) < 0 then openedWinId else old(previewWinId))
      ensures flag == Persist && previewer.value.TerminalPreviewer? ==>
        terminalBufnr == bufnr && plan == None &&
        wipes == (if old(terminalBufnr) > 0 then [WipeListed(old(terminalBufnr))] else [])
      ensures flag == Persist && !previewer.value.TerminalPreviewer? ==>
        terminalBufnr == old(terminalBufnr) && wipes == [] &&
        plan == Some(PlanBuffer(previewer.value, item, env, params, uiParams))
      ensures flag == Persist && previewWinId > 0 ==> SameTarget(item)
    {
      wipes, plan, highlight, jump := [], None, None, None;
      if SameTarget(item) {
        var leave;
        leave, wipes := Close(context, winCount);
        return NoAction, wipes, None, None, None;
      }
      if previewer.None? {
        return NoAction, [], None, None, None;
      }
      var p := previewer.value;
      if p.TerminalPreviewer? {
        var wiped;
        flag, wiped := PreviewContentsTerminal(openedWinId);
        if wiped.Some? {
          wipes := [WipeListed(wiped.value)];
        }
      } else {
        flag, plan := PreviewContentsBuffer(p, item, env, params, uiParams, openFails, openedWinId);
      }
      if flag == NoAction {
        return;
      }
      highlight := FloatingHighlight(uiParams);
      jump := Some(JumpOf(p));
      previewBufnrs := Added(previewBufnrs, currentBufnr);
      previewedTarget := Some(item);
      if p.TerminalPreviewer? {
        terminalBufnr := bufnr;
      }
      flag := Persist;
    }
  }
}
