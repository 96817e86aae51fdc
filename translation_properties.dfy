/** What the translation engine promises: the source language is the
    first non-blank one by priority, blank slots are filled, non-blank
    slots are never overwritten, and warnings are raised exactly for the
    fills that fell back to the source text. */
module TranslationProperties {
  import opened Strings
  import opened Scenes
  import opened Translation

  /** The translator never answers a successful call with blank text. */
  ghost predicate NeverBlank(tr: Translator) {
    forall text, src, tgt :: tr(text, src, tgt).Translated? ==> !IsBlank(tr(text, src, tgt).text)
  }

  /** The translator's successful answers are non-blank and carry no
      surrounding white space. */
  ghost predicate CleanOutput(tr: Translator) {
    forall text, src, tgt :: tr(text, src, tgt).Translated? ==>
      !IsBlank(tr(text, src, tgt).text) && Trim(tr(text, src, tgt).text) == tr(text, src, tgt).text
  }

  /** The first non-blank language of order sits at some index i with
      only blank languages before it. */
  lemma {:induction false} FirstNonBlankIndex(b: Block, order: seq<Lang>) returns (i: nat)
    requires FirstNonBlank(b, order).Some?
    ensures i < |order| && order[i] == FirstNonBlank(b, order).value
    ensures forall k :: 0 <= k < i ==> IsBlank(b.Get(order[k]))
  {
    if IsBlank(b.Get(order[0])) {
      var j := FirstNonBlankIndex(b, order[1..]);
      i := j + 1;
    } else {
      i := 0;
    }
  }

  /** Rank(base, m) is the first position of m in PriorityOrder(base). */
  lemma RankIsFirstPosition(base: Lang)
    ensures forall m :: Rank(base, m) < 4 && PriorityOrder(base)[Rank(base, m)] == m
    ensures forall k :: 0 <= k < 4 ==> Rank(base, PriorityOrder(base)[k]) <= k
  {
  }

  /** Source selection: l is the source language exactly when its slot is
      not blank and every language ahead of it in `[base, zh, en, id]` is. */
  lemma SourceLangIsFirstByPriority(b: Block, base: Lang, l: Lang)
    ensures SourceLang(b, base) == Some(l) <==>
      !IsBlank(b.Get(l)) && forall m :: Rank(base, m) < Rank(base, l) ==> IsBlank(b.Get(m))
  {
    var order := PriorityOrder(base);
    RankIsFirstPosition(base);
    if SourceLang(b, base) == Some(l) {
      var i := FirstNonBlankIndex(b, order);
      forall m | Rank(base, m) < Rank(base, l) ensures IsBlank(b.Get(m)) {
        assert order[Rank(base, m)] == m;
      }
    }
    if !IsBlank(b.Get(l)) && forall m :: Rank(base, m) < Rank(base, l) ==> IsBlank(b.Get(m)) {
      FirstNonBlankAt(b, order, Rank(base, l));
    }
  }

  /** There is no source language exactly when all three slots are blank. */
  lemma NoSourceIffAllBlank(b: Block, base: Lang)
    ensures SourceLang(b, base) == None <==> forall l :: IsBlank(b.Get(l))
  {
    var order := PriorityOrder(base);
    if forall l :: IsBlank(b.Get(l)) {
      FirstNonBlankNone(b, order);
    }
  }

  /** A block whose three slots are blank is left exactly as it was. */
  lemma BlankBlockUnchanged(b: Block, base: Lang, tr: Translator)
    requires forall l :: IsBlank(b.Get(l))
    ensures TranslatedBlock(b, base, tr) == b
  {
    NoSourceIffAllBlank(b, base);
  }

  /** Manual-edit protection: a non-blank slot that is not the source is
      bit for bit what it was, surrounding white space included. */
  lemma NeverOverwrites(b: Block, base: Lang, tr: Translator, l: Lang)
    requires !IsBlank(b.Get(l)) && SourceLang(b, base) != Some(l)
    ensures TranslatedBlock(b, base, tr).Get(l) == b.Get(l)
  {
  }

  /** The source slot is rewritten with its own trimmed text. */
  lemma SourceSlotTrimmed(b: Block, base: Lang, tr: Translator, src: Lang)
    requires SourceLang(b, base) == Some(src)
    ensures TranslatedBlock(b, base, tr).Get(src) == Trim(b.Get(src))
  {
  }

  /** A blank slot receives the translation of the trimmed source text,
      or that text itself when the translator fails. */
  lemma BlankSlotFilled(b: Block, base: Lang, tr: Translator, src: Lang, l: Lang)
    requires SourceLang(b, base) == Some(src) && IsBlank(b.Get(l))
    ensures var t := Trim(b.Get(src));
      && (tr(t, src, l).Translated? ==> TranslatedBlock(b, base, tr).Get(l) == tr(t, src, l).text)
      && (tr(t, src, l).ProviderError? ==> TranslatedBlock(b, base, tr).Get(l) == t)
  {
    var t := Trim(b.Get(src));
    assert !IsBlank(t) by {
      TrimIdempotent(b.Get(src));
    }
  }

  /** Completeness: with a translator that never answers blank text, a
      block with any non-blank slot ends with all three slots non-blank. */
  lemma FillIsComplete(b: Block, base: Lang, tr: Translator, m: Lang, l: Lang)
    requires NeverBlank(tr) && !IsBlank(b.Get(m))
    ensures !IsBlank(TranslatedBlock(b, base, tr).Get(l))
  {
    NoSourceIffAllBlank(b, base);
    var src := SourceLang(b, base).value;
    var t := Trim(b.Get(src));
    TrimIdempotent(b.Get(src));
    if IsBlank(b.Get(l)) {
      BlankSlotFilled(b, base, tr, src, l);
      assert tr(t, src, l).Translated? ==> !IsBlank(tr(t, src, l).text);
    }
  }

  /** For a block with some non-blank slot, one pass with a clean
      translator leaves the base language's slot non-blank and trimmed. */
  lemma BaseSlotCleanAfterFill(b: Block, base: Lang, tr: Translator, src: Lang)
    requires CleanOutput(tr) && SourceLang(b, base) == Some(src)
    ensures var r := TranslatedBlock(b, base, tr);
      !IsBlank(r.Get(base)) && Trim(r.Get(base)) == r.Get(base)
  {
    var t := Trim(b.Get(src));
    TrimIdempotent(b.Get(src));
    SourceLangIsFirstByPriority(b, base, src);
    if src != base {
      assert Rank(base, base) < Rank(base, src);
      BlankSlotFilled(b, base, tr, src, base);
      assert tr(t, src, base).Translated? ==>
        !IsBlank(tr(t, src, base).text) && Trim(tr(t, src, base).text) == tr(t, src, base).text;
    }
  }

  /** Idempotence: with a translator whose answers are non-blank and
      trimmed, translating a block a second time changes nothing. */
  lemma TranslateTwiceIsOnce(b: Block, base: Lang, tr: Translator)
    requires CleanOutput(tr)
    ensures TranslatedBlock(TranslatedBlock(b, base, tr), base, tr) == TranslatedBlock(b, base, tr)
  {
    var r := TranslatedBlock(b, base, tr);
    match SourceLang(b, base)
    case None =>
    case Some(src) =>
      BaseSlotCleanAfterFill(b, base, tr, src);
      FirstNonBlankAt(r, PriorityOrder(base), 0);
      assert SourceLang(r, base) == Some(base);
      forall l ensures !IsBlank(r.Get(l)) {
        FillIsComplete(b, base, tr, src, l);
      }
      BlockExtensionality(TranslatedBlock(r, base, tr), r);
  }

  /** Without the clean-output assumption the second pass can change the
      block: a translator that pads its answer with a space fills the base
      slot, and the second pass picks that slot as source and trims it. */
  lemma TranslateTwiceCanDiffer()
    ensures var tr: Translator := (text, src, tgt) => Translated(" x");
      var once := TranslatedBlock(Block("", "Hello", ""), Id, tr);
      TranslatedBlock(once, Id, tr) != once
  {
    var tr: Translator := (text, src, tgt) => Translated(" x");
    var b := Block("", "Hello", "");
    assert !IsSpace("Hello"[0]) && IsSpace(' ') && !IsSpace(" x"[1]);
    SourceLangIsFirstByPriority(b, Id, En);
    var once := TranslatedBlock(b, Id, tr);
    assert once.Get(Id) == " x";
    FirstNonBlankAt(once, PriorityOrder(Id), 0);
    assert TrimStart(" x") == "x";
    assert Trim(" x") == "x";
    assert TranslatedBlock(once, Id, tr).Get(Id) == "x";
  }

  /** The priority example: with base language id and an empty Chinese
      slot, the English text is the source. */
  lemma PriorityPicksEnglish(b: Block)
    requires IsBlank(b.Get(Id)) && IsBlank(b.Get(Zh)) && b.Get(En) == "Hello"
    ensures SourceLang(b, Id) == Some(En)
  {
    assert !IsSpace(b.Get(En)[0]);
    FirstNonBlankAt(b, PriorityOrder(Id), 2);
  }

  /** Which languages of `Langs[..n]` raised a warning. */
  lemma {:induction false} WarningsUpToMembers(b: Block, src: Lang, tr: Translator, n: nat, w: Warning)
    requires n <= |Langs|
    ensures w in WarningsUpTo(b, src, tr, n) <==>
      && w.src == src && w.tgt in Langs[..n] && w.tgt != src
      && IsBlank(b.Get(w.tgt)) && Fails(tr, Trim(b.Get(src)), src, w.tgt)
  {
    if n > 0 {
      WarningsUpToMembers(b, src, tr, n - 1, w);
      assert Langs[..n] == Langs[..n - 1] + [Langs[n - 1]];
    }
  }

  /** Warnings: a block raises a warning for (src, tgt) exactly when src is
      its source, the tgt slot was blank, and the translator failed on the
      trimmed source text. */
  lemma WarningIffFallback(b: Block, base: Lang, tr: Translator, w: Warning)
    ensures w in BlockWarnings(b, base, tr) <==>
      && SourceLang(b, base) == Some(w.src)
      && IsBlank(b.Get(w.tgt))
      && tr(Trim(b.Get(w.src)), w.src, w.tgt).ProviderError?
  {
    match SourceLang(b, base)
    case None =>
    case Some(src) =>
      WarningsUpToMembers(b, src, tr, |Langs|, w);
      assert Langs[..|Langs|] == [Zh, En, Id];
      TrimIdempotent(b.Get(src));
      assert w.tgt in Langs[..|Langs|] by {
        var k := match w.tgt case Zh => 0 case En => 1 case Id => 2;
        assert Langs[..|Langs|][k] == w.tgt;
      }
  }

  /** The scenario of a one-scene project: outline `{zh: "你好"}`, base
      language zh, with a translator that never answers blank text.
      Chinese keeps its text, and the other two slots end non-blank,
      whether the translator answers or fails. */
  lemma ChineseOutlineScenario(tr: Translator)
    requires NeverBlank(tr)
    ensures var r := TranslatedBlock(Block("你好", "", ""), Zh, tr);
      r.Get(Zh) == "你好" && !IsBlank(r.Get(En)) && !IsBlank(r.Get(Id))
  {
    var b := Block("你好", "", "");
    assert !IsSpace(b.Get(Zh)[0]) && !IsSpace('好');
    FirstNonBlankAt(b, PriorityOrder(Zh), 0);
    assert Trim("你好") == "你好" by {
      assert TrimStart("你好") == "你好";
      assert TrimEnd("你好") == "你好";
    }
    FillIsComplete(b, Zh, tr, Zh, En);
    FillIsComplete(b, Zh, tr, Zh, Id);
  }
}
