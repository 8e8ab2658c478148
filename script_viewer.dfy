/** The `ShowScriptButton` component of
    src/components/ShowScriptButton/ShowScriptButton.js: a modal viewer that
    fetches one script file at a time from a folder, with one tab per file and
    a page-wide scroll lock while it is open.

    Each `fetch` is split in two: the handler that starts it appends the URL
    to `requests` and the file name to `pending`; the completion is a separate
    event (`ResolveOk`, `ResolveNotOk`, `ResolveNetworkError`) that may arrive
    later, for any request still pending, in any order. Completions are not
    tagged with the request that caused them: whichever arrives writes `code`,
    `error` and `loading`, whatever tab is active and whether or not the
    viewer is still open. */
module ScriptViewer {

  datatype Option<T> = None | Some(value: T)

  /** `document.body.style`: one per page, shared by every viewer on it. */
  class PageBody {
    var overflow: string

    constructor ()
      ensures overflow == ""
    {
      overflow := "";
    }
  }

  /** The folder a `Preview` card passes to its viewer. */
  function PreviewFolder(publicUrl: string, codeName: string): string {
    publicUrl + "/code/" + codeName
  }

  /** The URL `fetchCode` requests for a file of a folder. */
  function RequestUrl(folder: string, filename: string): string {
    folder + "/" + filename
  }

  /** A card's viewer fetches `PUBLIC_URL/code/<name>/<file>`. */
  lemma PreviewRequestUrl(publicUrl: string, codeName: string, filename: string)
    ensures RequestUrl(PreviewFolder(publicUrl, codeName), filename)
         == publicUrl + "/code/" + codeName + "/" + filename
  {
  }

  /** The text of the error thrown for a response that is not ok. */
  function FetchFailedMessage(filename: string): string {
    "Failed to fetch " + filename
  }

  /** What the open viewer shows below its tab bar. */
  datatype Panel = LoadingText | ErrorText(message: string) | CodeView(code: string)

  /** JavaScript truthiness of the `error` cell: null and "" are falsy. */
  predicate Truthy(error: Option<string>) {
    error.Some? && error.value != ""
  }

  /** The three conditional panels, in order: the loading text when
      `loading`, the error when `error` is truthy, the highlighted code when
      neither holds. */
  function Panels(loading: bool, error: Option<string>, code: string): (r: seq<Panel>)
    ensures 1 <= |r| <= 2
    ensures LoadingText in r <==> loading
    ensures (Truthy(error) ==> ErrorText(error.value) in r)
    ensures forall i :: 0 <= i < |r| && r[i].ErrorText? ==> Truthy(error) && r[i].message == error.value
    ensures CodeView(code) in r <==> !loading && !Truthy(error)
    ensures forall i :: 0 <= i < |r| && r[i].CodeView? ==> r[i].code == code
  {
    (if loading then [LoadingText] else [])
    + (if Truthy(error) then [ErrorText(error.value)] else [])
    + (if !loading && !Truthy(error) then [CodeView(code)] else [])
  }

  /** When `loading` and a non-null `error` never hold together, exactly one
      panel is shown. */
  lemma OnePanelShown(loading: bool, error: Option<string>, code: string)
    requires !(loading && error.Some?)
    ensures |Panels(loading, error, code)| == 1
    ensures loading ==> Panels(loading, error, code) == [LoadingText]
    ensures Truthy(error) ==> Panels(loading, error, code) == [ErrorText(error.value)]
    ensures !loading && !Truthy(error) ==> Panels(loading, error, code) == [CodeView(code)]
  {
  }

  /** Where the active tab may point: at one of the files, or at "" when
      there are none. */
  predicate TabAllowed(scriptFiles: seq<string>, tab: string) {
    if |scriptFiles| > 0 then tab in scriptFiles else tab == ""
  }

  class Viewer {
    const folder: string
    const scriptFiles: seq<string>
    const body: PageBody

    var code: string
    var activeTab: string
    var loading: bool
    var error: Option<string>
    var visible: bool

    /** Every URL fetched so far, in order. */
    var requests: seq<string>
    /** The file names of the fetches whose completion has not yet run. */
    var pending: seq<string>

    /** The active tab is one of the files (or "" when there are none); the
        loading text and an error are never both set; and a viewer that is
        loading has a fetch in flight. */
    ghost predicate Valid()
      reads this
      ensures Valid() && |scriptFiles| > 0 ==> activeTab in scriptFiles
      ensures Valid() && loading ==> !Truthy(error) && |pending| > 0
    {
      && TabAllowed(scriptFiles, activeTab)
      && !(loading && error.Some?)
      && (loading ==> |pending| > 0)
    }

    /** What the component renders beyond its button: nothing while closed,
        the panels while open. */
    function View(): (r: seq<Panel>)
      reads this
      ensures !visible ==> r == []
      ensures visible ==> 1 <= |r| <= 2 && (LoadingText in r <==> loading)
    {
      if visible then Panels(loading, error, code) else []
    }

    constructor (folder: string, scriptFiles: seq<string>, body: PageBody)
      ensures this.folder == folder && this.scriptFiles == scriptFiles && this.body == body
      ensures code == "" && !loading && error == None && !visible
      ensures activeTab == if |scriptFiles| > 0 then scriptFiles[0] else ""
      ensures requests == [] && pending == []
      ensures Valid()
    {
      this.folder := folder;
      this.scriptFiles := scriptFiles;
      this.body := body;
      code := "";
      activeTab := if |scriptFiles| > 0 then scriptFiles[0] else "";
      loading := false;
      error := None;
      visible := false;
      requests := [];
      pending := [];
    }

    /** `fetchCode(filename)` up to the point where the request is sent. */
    method FetchCode(filename: string)
      requires Valid()
      modifies this
      ensures Valid()
      ensures loading && error == None && code == ""
      ensures requests == old(requests) + [RequestUrl(folder, filename)]
      ensures pending == old(pending) + [filename]
      ensures activeTab == old(activeTab) && visible == old(visible)
    {
      loading := true;
      error := None;
      code := "";
      requests := requests + [RequestUrl(folder, filename)];
      pending := pending + [filename];
    }

    /** `showCode`: open, fetch the current tab, lock page scrolling. */
    method ShowCode()
      requires Valid()
      modifies this, body
      ensures Valid()
      ensures visible && body.overflow == "hidden"
      ensures activeTab == old(activeTab)
      ensures loading && error == None && code == ""
      ensures requests == old(requests) + [RequestUrl(folder, old(activeTab))]
      ensures pending == old(pending) + [old(activeTab)]
    {
      visible := true;
      FetchCode(activeTab);
      body.overflow := "hidden";
    }

    /** `closeCode`: close, drop the code, unlock page scrolling. */
    method CloseCode()
      requires Valid()
      modifies this, body
      ensures Valid()
      ensures !visible && code == "" && body.overflow == ""
      ensures activeTab == old(activeTab) && loading == old(loading) && error == old(error)
      ensures requests == old(requests) && pending == old(pending)
    {
      visible := false;
      code := "";
      body.overflow := "";
    }

    /** The `onClick` of the tab for `file`. */
    method ClickTab(file: string)
      requires Valid()
      requires file in scriptFiles
      modifies this
      ensures Valid()
      ensures old(activeTab) == file ==>
        && code == old(code) && activeTab == old(activeTab) && loading == old(loading)
        && error == old(error) && visible == old(visible)
        && requests == old(requests) && pending == old(pending)
      ensures old(activeTab) != file ==>
        && activeTab == file && loading && error == None && code == ""
        && visible == old(visible)
        && requests == old(requests) + [RequestUrl(folder, file)]
        && pending == old(pending) + [file]
    {
      if file == activeTab {
        return;
      }
      activeTab := file;
      FetchCode(file);
    }

    /** The fetch of `pending[k]` answered ok with body `text`. */
    method ResolveOk(k: nat, text: string)
      requires Valid()
      requires k < |pending|
      modifies this
      ensures Valid()
      ensures code == text && !loading && error == old(error)
      ensures pending == old(pending[..k] + pending[k + 1..])
      ensures activeTab == old(activeTab) && visible == old(visible) && requests == old(requests)
    {
      pending := pending[..k] + pending[k + 1..];
      code := text;
      loading := false;
    }

    /** The fetch of `pending[k]` answered with a status that is not ok. */
    method ResolveNotOk(k: nat)
      requires Valid()
      requires k < |pending|
      modifies this
      ensures Valid()
      ensures error == Some(FetchFailedMessage(old(pending[k]))) && !loading && code == old(code)
      ensures pending == old(pending[..k] + pending[k + 1..])
      ensures activeTab == old(activeTab) && visible == old(visible) && requests == old(requests)
    {
      var filename := pending[k];
      pending := pending[..k] + pending[k + 1..];
      error := Some(FetchFailedMessage(filename));
      loading := false;
    }

    /** The fetch of `pending[k]`, or the reading of its body, was rejected
        with an error whose message is `message`. */
    method ResolveNetworkError(k: nat, message: string)
      requires Valid()
      requires k < |pending|
      modifies this
      ensures Valid()
      ensures error == Some(message) && !loading && code == old(code)
      ensures pending == old(pending[..k] + pending[k + 1..])
      ensures activeTab == old(activeTab) && visible == old(visible) && requests == old(requests)
    {
      pending := pending[..k] + pending[k + 1..];
      error := Some(message);
      loading := false;
    }
  }

  /** An open viewer in a reachable state shows exactly one panel. */
  lemma ValidViewerShowsOnePanel(v: Viewer)
    requires v.Valid() && v.visible
    ensures |v.View()| == 1
  {
    OnePanelShown(v.loading, v.error, v.code);
  }

  /** A `Preview` card of the Scripts page opened once: the first file is
      active and exactly one request goes to `PUBLIC_URL/code/<name>/<file>`. */
  method OpenPreviewExample(publicUrl: string) returns (tab: string, urls: seq<string>, shown: seq<Panel>)
    ensures tab == "GenerateDungeon.lua"
    ensures urls == [publicUrl + "/code/" + "DungeonGenerator" + "/" + "GenerateDungeon.lua"]
    ensures shown == [LoadingText]
  {
    var body := new PageBody();
    var v := new Viewer(PreviewFolder(publicUrl, "DungeonGenerator"),
                        ["GenerateDungeon.lua", "DungeonGenerator.lua"], body);
    v.ShowCode();
    PreviewRequestUrl(publicUrl, "DungeonGenerator", "GenerateDungeon.lua");
    tab, urls, shown := v.activeTab, v.requests, v.View();
  }

  /** A 404 for the active file ends in the error panel naming that file. */
  method NotFoundExample(folder: string) returns (shown: seq<Panel>, stillLoading: bool)
    ensures shown == [ErrorText("Failed to fetch a.lua")]
    ensures !stillLoading
  {
    var body := new PageBody();
    var v := new Viewer(folder, ["a.lua", "b.lua"], body);
    v.ShowCode();
    v.ResolveNotOk(0);
    assert FetchFailedMessage("a.lua") == "Failed to fetch a.lua";
    shown, stillLoading := v.View(), v.loading;
  }

  /** Without request tags, the slower response for the tab the user left
      overwrites the faster one for the tab now active. */
  method StaleResponseOverwrites(folder: string) returns (tab: string, shown: seq<Panel>)
    ensures tab == "b.lua"
    ensures shown == [CodeView("contents of a")]
  {
    var body := new PageBody();
    var v := new Viewer(folder, ["a.lua", "b.lua"], body);
    v.ShowCode();
    v.ClickTab("b.lua");
    assert v.pending == ["a.lua", "b.lua"];
    v.ResolveOk(1, "contents of b");
    v.ResolveOk(0, "contents of a");
    tab, shown := v.activeTab, v.View();
  }

  /** A late failure of the tab the user left stops the loading text while
      the new tab is still in flight, and the error it sets is not cleared
      when the new tab's code arrives: the code is stored but not shown. */
  method StaleErrorHidesCode(folder: string) returns (code: string, shown: seq<Panel>)
    ensures code == "contents of b"
    ensures shown == [ErrorText("Failed to fetch a.lua")]
  {
    var body := new PageBody();
    var v := new Viewer(folder, ["a.lua", "b.lua"], body);
    v.ShowCode();
    v.ClickTab("b.lua");
    v.ResolveNotOk(0);
    assert FetchFailedMessage("a.lua") == "Failed to fetch a.lua";
    assert v.pending == ["b.lua"];
    v.ResolveOk(0, "contents of b");
    code, shown := v.code, v.View();
  }

  /** A response that arrives after the viewer was closed still writes the
      code; reopening clears it again and fetches afresh. */
  method LateResponseAfterClose(folder: string)
    returns (closedCode: string, reopenedCode: string, urls: seq<string>)
    ensures closedCode == "late"
    ensures reopenedCode == ""
    ensures urls == [folder + "/a.lua", folder + "/a.lua"]
  {
    var body := new PageBody();
    var v := new Viewer(folder, ["a.lua"], body);
    v.ShowCode();
    v.CloseCode();
    v.ResolveOk(0, "late");
    closedCode := v.code;
    v.ShowCode();
    assert RequestUrl(folder, "a.lua") == folder + "/a.lua";
    reopenedCode, urls := v.code, v.requests;
  }

  /** The scroll lock is a plain overwrite of one page-wide field: closing
      either of two open viewers unlocks scrolling for both. */
  method ClosingOneUnlocksAll() returns (otherOpen: bool, overflow: string)
    ensures otherOpen && overflow == ""
  {
    var body := new PageBody();
    var first := new Viewer("/code/A", ["a.lua"], body);
    var second := new Viewer("/code/B", ["b.lua"], body);
    first.ShowCode();
    second.ShowCode();
    first.CloseCode();
    otherOpen, overflow := second.visible, body.overflow;
  }

  /** A response to the fetch issued before a close can arrive after the
      viewer is reopened: it is then shown while the new fetch is still in
      flight. */
  method ResponseAcrossReopen(folder: string)
    returns (shown: seq<Panel>, inFlight: seq<string>)
    ensures shown == [CodeView("old")]
    ensures inFlight == ["a.lua"]
  {
    var body := new PageBody();
    var v := new Viewer(folder, ["a.lua"], body);
    v.ShowCode();
    v.CloseCode();
    v.ShowCode();
    assert v.pending == ["a.lua", "a.lua"];
    v.ResolveOk(0, "old");
    shown, inFlight := v.View(), v.pending;
  }
}
