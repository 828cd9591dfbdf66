/**
 * A client of the session that walks through one editing session from the
 * contracts alone: load an image, drag out a region, edit its text, commit, undo
 * and redo.
 */
module Scenario {
  import opened Types
  import App
  import Canvas
  import CanvasArea
  import EditorPanel

  /**
   * Load a 2 by 2 image, drag out a region in REGION mode with no recognition
   * engine, type "Hello" and click the region so the panel holds the edited copy.
   */
  method LoadDragEdit() returns (s: App.Session, img: Raster)
    ensures fresh(s) && fresh(s.canvas) && s.Valid()
    ensures IsGrid(img, 2, 2) && Canvas.Pixels(s.canvas) == img
    ensures |s.history| == 1 && s.historyIndex == 0
    ensures s.history[0].raster == img && s.history[0].regions == []
    ensures |s.regions| == 1 && s.regions[0].text == "Hello" && !s.regions[0].edited
    ensures s.activeRegion == Some(s.regions[0])
  {
    s := new App.Session();
    img := [["#336699", "#336699"], ["#336699", "#336699"]];
    s.LoadImage(img, 2, 2, 1000);
    assert s.history[0].actionName == App.InitialLoadLabel;

    // Drag from (100, 100) to (300, 200) in REGION mode.
    s.SetMode(RegionMode);
    var sel := new CanvasArea.Selector();
    sel.MouseDown(s, 0, Point(100, 100));
    sel.MouseMove(Point(300, 200));
    assert sel.selectionRect == Some(Rect(100, 100, 200, 100));
    var created := sel.MouseUp(s, false);
    assert created.Some?;
    var id := created.value;
    assert s.regions == [CanvasArea.NewRegion(id, Rect(100, 100, 200, 100))];
    assert !s.isProcessing;

    // Type "Hello": the list changes, the active copy does not until it is clicked.
    EditorPanel.ChangeField(s, EditorPanel.TextChange("Hello"));
    assert s.activeRegion.value.text == CanvasArea.RecognizingText;
    CanvasArea.ClickRegion(s, 0);
    assert s.activeRegion.value.text == "Hello";
  }

  /** Commit the edit, undo back to the loaded image, and redo to the saved item. */
  method LoadDragEditCommitUndoRedo()
  {
    var s, img := LoadDragEdit();
    ghost var loaded := s.history[0];
    ghost var before := s.regions;

    EditorPanel.Commit(s, 2000);
    assert |s.history| == 2 && s.historyIndex == 1;
    assert s.history[1].actionName == EditorPanel.CommitLabel("Hello");
    assert s.regions[0].edited && s.activeRegion.None?;
    // The item just saved holds the list as it was before the region was marked edited.
    assert s.history[1].regions == before;
    App.CommitThenUndo([loaded], 0, s.history[1]);
    assert s.history[0] == loaded;

    s.Undo();
    assert s.historyIndex == 0 && s.regions == [] && Canvas.Pixels(s.canvas) == img;

    s.Redo();
    assert s.historyIndex == 1 && s.regions == before;
    assert s.regions[0].text == "Hello";
    // The item restored is the snapshot taken before the commit marked the region edited.
    assert !s.regions[0].edited;
  }
}
