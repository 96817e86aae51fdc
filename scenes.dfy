/** The multilingual content unit: a scene with three language blocks. */
module Scenes {

  /** The fixed language-code set, in the order `LANGS` lists it. */
  datatype Lang = Zh | En | Id

  /** `LANGS`: the order in which the engine visits target languages. */
  const Langs: seq<Lang> := [Zh, En, Id]

  /** The three parallel text blocks of a scene. */
  datatype Field = Outline | Visual | Dialogue

  /** One language block: a text for each of zh, en and id. Being a
      record, it always holds all three keys. */
  datatype Block = Block(zh: string, en: string, id: string)
  {
    /** `block[lang]` */
    function Get(l: Lang): string {
      match l
      case Zh => zh
      case En => en
      case Id => id
    }

    /** `block[lang] = text`: that slot changes and no other. */
    function Set(l: Lang, text: string): (r: Block)
      ensures r.Get(l) == text
      ensures forall m :: m != l ==> r.Get(m) == Get(m)
    {
      match l
      case Zh => this.(zh := text)
      case En => this.(en := text)
      case Id => this.(id := text)
    }
  }

  /** Two blocks that agree on every language are the same block. */
  lemma BlockExtensionality(a: Block, b: Block)
    requires forall l :: a.Get(l) == b.Get(l)
    ensures a == b
  {
    assert a.Get(Zh) == b.Get(Zh) && a.Get(En) == b.Get(En) && a.Get(Id) == b.Get(Id);
  }

  /** `{lang: "" for lang in LANGS}` */
  const EmptyBlock: Block := Block("", "", "")

  /** A scene. Its id is assigned once, when it is created; the image
      name and the three blocks are edited in place. */
  class Scene {
    const id: int
    var imageName: string
    var outline: Block
    var visual: Block
    var dialogue: Block

    /** `new_scene(scene_id)`: no image, every slot of every block empty. */
    constructor (sceneId: int)
      ensures id == sceneId
      ensures imageName == ""
      ensures forall f :: Texts(f) == EmptyBlock
    {
      id := sceneId;
      imageName := "";
      outline, visual, dialogue := EmptyBlock, EmptyBlock, EmptyBlock;
    }

    /** `scene[field]` */
    function Texts(f: Field): Block
      reads this
    {
      match f
      case Outline => outline
      case Visual => visual
      case Dialogue => dialogue
    }

    /** `scene[field][lang]` */
    function Text(f: Field, l: Lang): string
      reads this
    {
      Texts(f).Get(l)
    }

    /** `scene[field][lang] = text`: one slot changes; the other slots,
        the other blocks and the image name stay as they were. */
    method SetText(f: Field, l: Lang, text: string)
      modifies this
      ensures Texts(f) == old(Texts(f)).Set(l, text)
      ensures forall g :: g != f ==> Texts(g) == old(Texts(g))
      ensures imageName == old(imageName)
    {
      match f
      case Outline => outline := outline.Set(l, text);
      case Visual => visual := visual.Set(l, text);
      case Dialogue => dialogue := dialogue.Set(l, text);
    }

    /** The upload handler's `scene["image_name"] = img_file.name`; the
        text blocks are untouched. */
    method AttachImage(name: string)
      modifies this
      ensures imageName == name
      ensures forall f :: Texts(f) == old(Texts(f))
    {
      imageName := name;
    }
  }
}
