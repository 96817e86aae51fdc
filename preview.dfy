/** The outline preview shown beside each scene's title. */
module Preview {
  import opened Strings
  import opened Scenes
  import opened Translation

  /** Shown when there is no outline text ("no outline yet"). */
  const Placeholder: string := "（暂无大纲内容）"

  /** How many characters of the outline the preview keeps. */
  const PreviewLength: nat := 20

  /** `text[:20] + "…"` for a text longer than 20 characters, else the
      text itself. */
  function Shorten(t: string): (r: string)
    ensures |r| <= PreviewLength + 1
    ensures |t| <= PreviewLength ==> r == t
    ensures |t| > PreviewLength ==> r == t[..PreviewLength] + "…"
  {
    if |t| > PreviewLength then t[..PreviewLength] + "…" else t
  }

  /** `outline[base] or outline["zh"] or outline["en"] or outline["id"]`:
      the first slot of `[base, zh, en, id]` that is not the empty string,
      untrimmed, and "" when all of them are empty. */
  function FirstNonEmpty(outline: Block, base: Lang): (r: string)
    ensures r == "" <==> forall l :: outline.Get(l) == ""
    ensures r != "" ==> exists l :: r == outline.Get(l) && forall m :: Rank(base, m) < Rank(base, l) ==> outline.Get(m) == ""
    ensures forall l :: outline.Get(l) != "" && (forall m :: Rank(base, m) < Rank(base, l) ==> outline.Get(m) == "") ==>
      r == outline.Get(l)
  {
    if outline.Get(base) != "" then outline.Get(base)
    else if outline.Get(Zh) != "" then outline.Get(Zh)
    else if outline.Get(En) != "" then outline.Get(En)
    else outline.Get(Id)
  }

  /** `get_outline_preview()` as written: the first non-empty slot by
      priority is chosen before it is trimmed; it shows the placeholder
      when that slot is white space only, and its trimmed, shortened text
      otherwise. */
  function OutlinePreview(outline: Block, base: Lang): (r: string)
    ensures (forall l :: outline.Get(l) == "") ==> r == Placeholder
    ensures forall l :: outline.Get(l) != "" && (forall m :: Rank(base, m) < Rank(base, l) ==> outline.Get(m) == "") ==>
      r == if IsBlank(outline.Get(l)) then Placeholder else Shorten(Trim(outline.Get(l)))
    ensures r == Placeholder || (0 < |r| <= PreviewLength + 1 && exists l :: outline.Get(l) != "")
  {
    var text := Trim(FirstNonEmpty(outline, base));
    if text == "" then Placeholder else Shorten(text)
  }

  /** A white-space-only base slot hides the Chinese outline: the preview
      reads "no outline yet" although the translation engine would take
      the Chinese text as its source. */
  lemma BlankBaseHidesOutline()
    ensures var outline := Block("你好", "", "  ");
      && OutlinePreview(outline, Id) == Placeholder
      && SourceLang(outline, Id) == Some(Zh)
  {
    var outline := Block("你好", "", "  ");
    assert IsSpace(' ') && !IsSpace(outline.Get(Zh)[0]);
    assert FirstNonEmpty(outline, Id) == "  ";
    assert IsBlank("  ");
    FirstNonBlankAt(outline, PriorityOrder(Id), 1);
  }

  /** The preview as evidently intended: it shows the slot the translation
      engine would use as source, trimmed; the placeholder branch is taken
      only when there is no source language. */
  function OutlinePreviewOfSource(outline: Block, base: Lang): (r: string)
    ensures SourceLang(outline, base) == None ==> r == Placeholder
    ensures SourceLang(outline, base).Some? ==>
      var t := Trim(outline.Get(SourceLang(outline, base).value));
      && 0 < |r| <= PreviewLength + 1
      && (|t| <= PreviewLength ==> r == t)
      && (|t| > PreviewLength ==> r == t[..PreviewLength] + "…")
  {
    match SourceLang(outline, base)
    case None => Placeholder
    case Some(l) => Shorten(Trim(outline.Get(l)))
  }

  /** With every slot blank the corrected preview shows the placeholder. */
  lemma AllBlankShowsPlaceholder(outline: Block, base: Lang)
    requires forall l :: IsBlank(outline.Get(l))
    ensures OutlinePreviewOfSource(outline, base) == Placeholder
  {
    FirstNonBlankNone(outline, PriorityOrder(base));
  }

  /** When no slot holds white space only, the preview as written and the
      corrected one agree. */
  lemma PreviewsAgreeWithoutBlankSlots(outline: Block, base: Lang)
    requires forall l :: outline.Get(l) == "" || !IsBlank(outline.Get(l))
    ensures OutlinePreview(outline, base) == OutlinePreviewOfSource(outline, base)
  {
    var order := PriorityOrder(base);
    assert forall l :: IsBlank(outline.Get(l)) <==> outline.Get(l) == "";
    if outline.Get(base) != "" {
      FirstNonBlankAt(outline, order, 0);
    } else if outline.Get(Zh) != "" {
      FirstNonBlankAt(outline, order, 1);
    } else if outline.Get(En) != "" {
      FirstNonBlankAt(outline, order, 2);
    } else if outline.Get(Id) != "" {
      FirstNonBlankAt(outline, order, 3);
    } else {
      FirstNonBlankNone(outline, order);
    }
  }
}
