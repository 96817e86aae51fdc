/** The export: one flat row per scene of the current project, in display
    order. Encoding the rows as CSV text is not part of the model. */
module Export {
  import opened Scenes
  import opened ProjectStore

  /** One export row; the comments give the column headers. */
  datatype Row = Row(
    project: string,     // Project
    sceneNo: int,        // Scene No.
    image: string,       // Image
    outlineZh: string,   // Outline (Chinese)
    outlineEn: string,   // Outline (English)
    outlineId: string,   // Outline (Indonesian)
    visualZh: string,    // Visual (Chinese)
    visualEn: string,    // Visual (English)
    visualId: string,    // Visual (Indonesian)
    dialogueZh: string,  // Dialogue (Chinese)
    dialogueEn: string,  // Dialogue (English)
    dialogueId: string)  // Dialogue (Indonesian)
  {
    /** The column that holds the text of field f in language l. */
    function Text(f: Field, l: Lang): string {
      match (f, l)
      case (Outline, Zh) => outlineZh
      case (Outline, En) => outlineEn
      case (Outline, Id) => outlineId
      case (Visual, Zh) => visualZh
      case (Visual, En) => visualEn
      case (Visual, Id) => visualId
      case (Dialogue, Zh) => dialogueZh
      case (Dialogue, En) => dialogueEn
      case (Dialogue, Id) => dialogueId
    }
  }

  /** The export loop. Row k (from 0) carries the current project's name,
      the 1-based position k + 1, the scene's image name and its nine
      texts as they stand; the method modifies nothing. */
  method ExportRows(store: Store) returns (rows: seq<Row>)
    requires store.Valid()
    ensures |rows| == |store.Current().scenes|
    ensures forall k :: 0 <= k < |rows| ==>
      && rows[k].project == store.current
      && rows[k].sceneNo == k + 1
      && rows[k].image == store.Current().scenes[k].imageName
    ensures forall k, f, l :: 0 <= k < |rows| ==> rows[k].Text(f, l) == store.Current().scenes[k].Text(f, l)
  {
    var name := store.current;
    var scenes := store.projects[name].scenes;
    rows := [];
    for order := 0 to |scenes|
      invariant |rows| == order
      invariant forall k :: 0 <= k < order ==>
        && rows[k].project == name
        && rows[k].sceneNo == k + 1
        && rows[k].image == scenes[k].imageName
      invariant forall k, f, l :: 0 <= k < order ==> rows[k].Text(f, l) == scenes[k].Text(f, l)
    {
      var scene := scenes[order];
      rows := rows + [Row(
        name, order + 1, scene.imageName,
        scene.Text(Outline, Zh), scene.Text(Outline, En), scene.Text(Outline, Id),
        scene.Text(Visual, Zh), scene.Text(Visual, En), scene.Text(Visual, Id),
        scene.Text(Dialogue, Zh), scene.Text(Dialogue, En), scene.Text(Dialogue, Id))];
    }
  }

  /** A project whose only scene was just added exports one row, numbered
      1, with an empty image name and nine empty texts. */
  method ExportOfNewScene() returns (rows: seq<Row>)
    ensures |rows| == 1 && rows[0].sceneNo == 1 && rows[0].image == ""
    ensures forall f, l :: rows[0].Text(f, l) == ""
  {
    var store := new Store();
    var s := store.projects[store.current].AddScene();
    rows := ExportRows(store);
  }
}
