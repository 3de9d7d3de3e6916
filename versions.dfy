/** How the two preview versions differ on the same previewer: buffer names
    agree apart from their prefix except for nofile previews, and the
    content sources are tried in a different order with a different result
    when all of them fail. */
module PreviewVersions {
  import opened Wrappers
  import opened Strings
  import opened Items
  import opened Editor
  import FilerPreview
  import LegacyPreview

  /** A derived name is the same in both versions after its prefix, for every
      previewer but nofile (and `useExisting`, which only the newer version
      knows). */
  lemma NamesAgreeUpToPrefix(p: Previewer, item: Item, env: Env)
    requires !p.NoFilePreviewer? && !FilerPreview.UsesExisting(p)
    ensures FilerPreview.GetPreviewBuffer(p, item, env).bufname ==
      FilerPreview.NamePrefix + LegacyPreview.GetPreviewBufferName(p, item, env)[|LegacyPreview.NamePrefix|..]
  {
    assert FilerPreview.NameSuffix(p, item, env) == LegacyPreview.NameSuffix(p, item, env);
  }

  /** Nofile previews: one shared `ddu-ff:preview` buffer in the newer
      version, one buffer per item word in the older. */
  lemma NoFileNamesDiffer(p: Previewer, item: Item, env: Env)
    requires p.NoFilePreviewer?
    ensures FilerPreview.GetPreviewBuffer(p, item, env).bufname == FilerPreview.NamePrefix + "preview"
    ensures LegacyPreview.GetPreviewBufferName(p, item, env) == LegacyPreview.NamePrefix + item.word
  {
  }

  /** A listed `expr` buffer and a readable file: the newer version reads the
      file, the older one the buffer. */
  lemma ContentsPreferenceDiffers(p: Previewer, env: Env)
    requires p.BufferPreviewer? && LegacyPreview.ListedExpr(env, p) && ReadableFile(env, p.path)
    ensures FilerPreview.GetContents(p, env) ==
      FilerPreview.Contents(false, Split(env.stat(p.path.value).value.text, '\n'))
    ensures LegacyPreview.GetContents(p, env) == env.bufLines(env.bufNr(p.expr.value))
  {
  }

  /** A readable file and no listed `expr` buffer: both versions show the
      file's lines. */
  lemma ContentsAgreeOnFiles(p: Previewer, env: Env)
    requires p.BufferPreviewer? && !LegacyPreview.ListedExpr(env, p) && ReadableFile(env, p.path)
    ensures !FilerPreview.GetContents(p, env).err
    ensures FilerPreview.GetContents(p, env).lines == LegacyPreview.GetContents(p, env)
  {
  }

  /** Nothing to read: the newer version shows the two error lines, the older
      one an empty buffer. */
  lemma MissingContentsDiffer(p: Previewer, env: Env)
    requires p.BufferPreviewer? && !ReadableFile(env, p.path)
    requires !FilerPreview.BufferAvailable(env, p) && !LegacyPreview.ListedExpr(env, p)
    ensures FilerPreview.GetContents(p, env) == FilerPreview.Contents(true, FilerPreview.ErrorLines(p.path))
    ensures LegacyPreview.GetContents(p, env) == []
  {
  }
}
