/** The translation engine: pick a source language per block by priority,
    fill only the blank slots through an external translator, and never
    overwrite a slot that already holds text. */
module Translation {
  import opened Strings
  import opened Scenes

  datatype Option<T> = None | Some(value: T)

  /** What one call to the external translator produced. */
  datatype TranslatorReply = Translated(text: string) | ProviderError

  /** The external translator, `translator.translate(text, src, dest)`,
      taken as a parameter: text, source language, target language. */
  type Translator = (string, Lang, Lang) -> TranslatorReply

  /** A non-fatal warning, `翻译失败（src → tgt）`, raised when the translator
      failed for one target slot. */
  datatype Warning = Warning(src: Lang, tgt: Lang)

  /** `translate_text`: a blank text translates to ""; otherwise the
      result is the translator's text, or the input itself when the
      translator fails. */
  function TranslateText(tr: Translator, text: string, src: Lang, tgt: Lang): (r: string)
    ensures IsBlank(text) ==> r == ""
    ensures !IsBlank(text) && tr(text, src, tgt).Translated? ==> r == tr(text, src, tgt).text
    ensures !IsBlank(text) && tr(text, src, tgt).ProviderError? ==> r == text
  {
    if Trim(text) == "" then ""
    else
      match tr(text, src, tgt)
      case Translated(t) => t
      case ProviderError => text
  }

  /** `translate_text` issues its warning exactly here. */
  predicate Fails(tr: Translator, text: string, src: Lang, tgt: Lang) {
    Trim(text) != "" && tr(text, src, tgt).ProviderError?
  }

  /** `order = [base_lang, "zh", "en", "id"]` */
  function PriorityOrder(base: Lang): seq<Lang> {
    [base, Zh, En, Id]
  }

  /** The position at which l first occurs in PriorityOrder(base). */
  function Rank(base: Lang, l: Lang): nat {
    if l == base then 0
    else match l
      case Zh => 1
      case En => 2
      case Id => 3
  }

  /** The first language of order whose slot in b is not blank. */
  function FirstNonBlank(b: Block, order: seq<Lang>): (r: Option<Lang>)
    ensures r.Some? ==> r.value in order && !IsBlank(b.Get(r.value))
    ensures r.None? ==> forall l :: l in order ==> IsBlank(b.Get(l))
  {
    if order == [] then None
    else if !IsBlank(b.Get(order[0])) then Some(order[0])
    else FirstNonBlank(b, order[1..])
  }

  /** If every language before position i of order is blank and the one
      at i is not, that one is the first non-blank language. */
  lemma {:induction false} FirstNonBlankAt(b: Block, order: seq<Lang>, i: nat)
    requires i < |order| && !IsBlank(b.Get(order[i]))
    requires forall k :: 0 <= k < i ==> IsBlank(b.Get(order[k]))
    ensures FirstNonBlank(b, order) == Some(order[i])
  {
    if i > 0 {
      FirstNonBlankAt(b, order[1..], i - 1);
    }
  }

  /** If every language of order is blank, there is no non-blank one. */
  lemma {:induction false} FirstNonBlankNone(b: Block, order: seq<Lang>)
    requires forall k :: 0 <= k < |order| ==> IsBlank(b.Get(order[k]))
    ensures FirstNonBlank(b, order) == None
  {
    if order != [] {
      FirstNonBlankNone(b, order[1..]);
    }
  }

  /** The source language of a block: the first of `[base, zh, en, id]`
      whose trimmed text is non-empty, or None when there is none. */
  function SourceLang(b: Block, base: Lang): Option<Lang> {
    FirstNonBlank(b, PriorityOrder(base))
  }

  /** The text a slot holds once the block is filled from src: the source
      slot its own trimmed text, a slot with text its old value untouched,
      a blank slot the translation of the trimmed source text. */
  function FilledText(b: Block, src: Lang, l: Lang, tr: Translator): string {
    var srcText := Trim(b.Get(src));
    if l == src then srcText
    else if !IsBlank(b.Get(l)) then b.Get(l)
    else TranslateText(tr, srcText, src, l)
  }

  /** The block `translate_block` leaves behind. */
  function TranslatedBlock(b: Block, base: Lang, tr: Translator): Block {
    match SourceLang(b, base)
    case None => b
    case Some(src) =>
      Block(FilledText(b, src, Zh, tr), FilledText(b, src, En, tr), FilledText(b, src, Id, tr))
  }

  /** The block after the fill loop has visited the first n languages of
      `Langs`, before the source slot is written back. */
  function FillUpTo(b: Block, src: Lang, tr: Translator, n: nat): Block
    requires n <= |Langs|
  {
    if n == 0 then b
    else
      var l := Langs[n - 1];
      var prev := FillUpTo(b, src, tr, n - 1);
      if l == src || !IsBlank(b.Get(l)) then prev
      else prev.Set(l, TranslateText(tr, Trim(b.Get(src)), src, l))
  }

  /** The fill loop followed by the write-back of the source slot yields
      the block that `FilledText` describes slot by slot. */
  lemma FillLoopMeetsTranslatedBlock(b: Block, base: Lang, src: Lang, tr: Translator)
    requires SourceLang(b, base) == Some(src)
    ensures FillUpTo(b, src, tr, |Langs|).Set(src, Trim(b.Get(src))) == TranslatedBlock(b, base, tr)
  {
    var t := Trim(b.Get(src));
    var b0 := FillUpTo(b, src, tr, 0);
    var b1 := FillUpTo(b, src, tr, 1);
    var b2 := FillUpTo(b, src, tr, 2);
    var b3 := FillUpTo(b, src, tr, 3);
    assert Langs[0] == Zh && Langs[1] == En && Langs[2] == Id;
    assert b0 == b;
    assert b1 == if Zh == src || !IsBlank(b.Get(Zh)) then b0 else b0.Set(Zh, TranslateText(tr, t, src, Zh));
    assert b2 == if En == src || !IsBlank(b.Get(En)) then b1 else b1.Set(En, TranslateText(tr, t, src, En));
    assert b3 == if Id == src || !IsBlank(b.Get(Id)) then b2 else b2.Set(Id, TranslateText(tr, t, src, Id));
    BlockExtensionality(b3.Set(src, t), TranslatedBlock(b, base, tr));
  }

  /** The warnings raised while the fill loop visits the first n
      languages of `Langs`, filling from src. */
  function WarningsUpTo(b: Block, src: Lang, tr: Translator, n: nat): seq<Warning>
    requires n <= |Langs|
  {
    if n == 0 then []
    else
      var l := Langs[n - 1];
      WarningsUpTo(b, src, tr, n - 1)
      + (if l != src && IsBlank(b.Get(l)) && Fails(tr, Trim(b.Get(src)), src, l)
         then [Warning(src, l)] else [])
  }

  /** The warnings `translate_block` raises for one block. */
  function BlockWarnings(b: Block, base: Lang, tr: Translator): seq<Warning> {
    match SourceLang(b, base)
    case None => []
    case Some(src) => WarningsUpTo(b, src, tr, |Langs|)
  }

  /** The first loop of `translate_block`: walk `[base_lang, zh, en, id]`
      and stop at the first language whose trimmed text is non-empty. */
  method PickSource(block: Block, base: Lang) returns (src: Option<Lang>)
    ensures src == SourceLang(block, base)
  {
    var order := [base, Zh, En, Id];
    src := None;
    for i := 0 to |order|
      invariant src.None?
      invariant forall k :: 0 <= k < i ==> IsBlank(block.Get(order[k]))
    {
      if Trim(block.Get(order[i])) != "" {
        FirstNonBlankAt(block, order, i);
        src := Some(order[i]);
        break;
      }
    }
    if src.None? {
      FirstNonBlankNone(block, order);
    }
  }

  /** `translate_block(scene, field, base_lang)`. The UI's session-state
      writes are not part of the model. */
  method TranslateBlock(scene: Scene, field: Field, base: Lang, tr: Translator)
    returns (warnings: seq<Warning>)
    modifies scene
    ensures scene.Texts(field) == TranslatedBlock(old(scene.Texts(field)), base, tr)
    ensures forall f :: f != field ==> scene.Texts(f) == old(scene.Texts(f))
    ensures scene.imageName == old(scene.imageName)
    ensures warnings == BlockWarnings(old(scene.Texts(field)), base, tr)
  {
    // The snapshot taken before any write; `texts[lang]` is Trim(block.Get(lang)).
    var block := scene.Texts(field);

    var src := PickSource(block, base);
    if src.None? {
      return [];
    }

    var s := src.value;
    var srcText := Trim(block.Get(s));
    warnings := [];
    for j := 0 to |Langs|
      invariant scene.imageName == old(scene.imageName)
      invariant forall f :: f != field ==> scene.Texts(f) == old(scene.Texts(f))
      invariant scene.Texts(field) == FillUpTo(block, s, tr, j)
      invariant warnings == WarningsUpTo(block, s, tr, j)
    {
      var lang := Langs[j];
      if lang == s {
        continue;
      }
      if Trim(block.Get(lang)) != "" {
        continue;
      }
      var translated := TranslateText(tr, srcText, s, lang);
      if Fails(tr, srcText, s, lang) {
        warnings := warnings + [Warning(s, lang)];
      }
      scene.SetText(field, lang, translated);
    }
    scene.SetText(field, s, srcText);
    FillLoopMeetsTranslatedBlock(block, base, s, tr);
  }

  /** `translate_scene`: the visual, outline and dialogue blocks are
      translated in that order, each with its own source language; the
      image name does not change. */
  method TranslateScene(scene: Scene, base: Lang, tr: Translator) returns (warnings: seq<Warning>)
    modifies scene
    ensures forall f :: scene.Texts(f) == TranslatedBlock(old(scene.Texts(f)), base, tr)
    ensures scene.imageName == old(scene.imageName)
    ensures warnings == BlockWarnings(old(scene.visual), base, tr)
                      + BlockWarnings(old(scene.outline), base, tr)
                      + BlockWarnings(old(scene.dialogue), base, tr)
  {
    var visual := TranslateBlock(scene, Visual, base, tr);
    var outline := TranslateBlock(scene, Outline, base, tr);
    var dialogue := TranslateBlock(scene, Dialogue, base, tr);
    warnings := visual + outline + dialogue;
  }
}
