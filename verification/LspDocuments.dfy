/** How the playground's language client keeps the server's documents in step with the
  * tab strip (web/lsp-client.js, lines 163-170, 265-271, 320-378, 470-478 and 907-932). */
module LspDocuments {
  import opened Wrappers

  /** An editor buffer. A model in no map of texts has been disposed of. */
  type Model = nat

  datatype Tab = Tab(id: int, name: string, model: Option<Model>)

  /** What the client keeps for an open uri; its listener is attached to `model`. */
  datatype Doc = Doc(tabId: int, version: nat, model: Model)

  datatype Message =
    | DidOpen(uri: string, version: nat, text: string)
    | DidChange(uri: string, version: nat, text: string)
    | DidClose(uri: string)
    | Reset

  function UriForTab(tab: Tab): string { "file:///project/" + tab.name }

  /** The first tab that a uri names. */
  function TabForUri(tabs: seq<Tab>, uri: string): Option<Tab> {
    if tabs == [] then None else if UriForTab(tabs[0]) == uri then Some(tabs[0]) else TabForUri(tabs[1..], uri)
  }

  /** A uri names a tab by its name and by nothing else. */
  lemma UrisTellNamesApart(a: Tab, b: Tab)
    ensures UriForTab(a) == UriForTab(b) <==> a.name == b.name
  {
    assert UriForTab(a)[|"file:///project/"|..] == a.name && UriForTab(b)[|"file:///project/"|..] == b.name;
  }

  /** The uri of a tab names the first tab of that name. */
  lemma {:induction false} FirstOfName(tabs: seq<Tab>, t: Tab)
    ensures match TabForUri(tabs, UriForTab(t))
            case None => forall k | 0 <= k < |tabs| :: tabs[k].name != t.name
            case Some(u) =>
              exists k | 0 <= k < |tabs| ::
                tabs[k] == u && u.name == t.name && forall j | 0 <= j < k :: tabs[j].name != t.name
  {
    if tabs != [] {
      UrisTellNamesApart(tabs[0], t);
      FirstOfName(tabs[1..], t);
      var found := TabForUri(tabs, UriForTab(t));
      if tabs[0].name == t.name {
        assert tabs[0] == found.value;
      } else if found.Some? {
        var k :| 0 <= k < |tabs[1..]| && tabs[1..][k] == found.value && found.value.name == t.name
                 && forall j | 0 <= j < k :: tabs[1..][j].name != t.name;
        assert tabs[k + 1] == found.value && forall j | 0 < j < k + 1 :: tabs[j] == tabs[1..][j - 1];
      } else {
        assert forall k | 0 < k < |tabs| :: tabs[k] == tabs[1..][k - 1];
      }
    }
  }

  lemma {:induction false} TabSnoc(tabs: seq<Tab>, t: Tab, uri: string)
    ensures TabForUri(tabs + [t], uri) ==
            if TabForUri(tabs, uri).Some? then TabForUri(tabs, uri) else if UriForTab(t) == uri then Some(t) else None
  {
    if tabs == [] {
      assert [t][1..] == [];
    } else {
      assert (tabs + [t])[1..] == tabs[1..] + [t];
      TabSnoc(tabs[1..], t, uri);
    }
  }

  lemma {:induction false} AbsentTab(tabs: seq<Tab>, uri: string)
    ensures TabForUri(tabs, uri).Some? <==> uri in Uris(tabs)
  {
    if tabs != [] {
      AbsentTab(tabs[1..], uri);
      assert tabs == [tabs[0]] + tabs[1..];
    }
  }

  predicate IsLive(tab: Tab, texts: map<Model, string>) { tab.model.Some? && tab.model.value in texts }

  function LiveTabs(tabs: seq<Tab>, texts: map<Model, string>): (live: seq<Tab>)
    ensures forall t | t in live :: IsLive(t, texts)
    ensures forall t | t in tabs && IsLive(t, texts) :: t in live
  {
    if tabs == [] then [] else (if IsLive(tabs[0], texts) then [tabs[0]] else []) + LiveTabs(tabs[1..], texts)
  }

  function Uris(tabs: seq<Tab>): set<string> { set t | t in tabs :: UriForTab(t) }

  // ----- the server's side of the protocol -----

  datatype ServerDoc = ServerDoc(version: nat, text: string)

  /** What a message makes of the server's documents; nothing, if the protocol forbids it:
    * a second open, a change or a close of what is not open, a version that does not grow. */
  function Receive(docs: map<string, ServerDoc>, m: Message): Option<map<string, ServerDoc>> {
    match m
    case DidOpen(uri, v, text) => if uri in docs then None else Some(docs[uri := ServerDoc(v, text)])
    case DidChange(uri, v, text) =>
      if uri in docs && docs[uri].version < v then Some(docs[uri := ServerDoc(v, text)]) else None
    case DidClose(uri) => if uri in docs then Some(docs - {uri}) else None
    case Reset => Some(map[])
  }

  /** The server's documents after all messages, if none was forbidden. */
  function Server(log: seq<Message>): Option<map<string, ServerDoc>> {
    if log == [] then Some(map[]) else
    var before := Server(log[..|log| - 1]);
    if before.None? then None else Receive(before.value, log[|log| - 1])
  }

  lemma ServerSnoc(log: seq<Message>, m: Message)
    requires Server(log).Some?
    ensures Server(log + [m]) == Receive(Server(log).value, m)
  {
    assert (log + [m])[..|log|] == log;
  }

  predicate Carries(m: Message, uri: string) { (m.DidOpen? || m.DidChange?) && m.uri == uri }

  predicate Ends(m: Message, uri: string) { m == DidClose(uri) || m == Reset }

  lemma {:induction false} ServerPrefix(log: seq<Message>, n: nat)
    requires Server(log).Some? && n <= |log|
    ensures Server(log[..n]).Some?
    decreases |log|
  {
    if n == |log| {
      assert log[..n] == log;
    } else {
      ServerPrefix(log[..|log| - 1], n);
      assert log[..|log| - 1][..n] == log[..n];
    }
  }

  /** What is once sent stays open, at that version or a later one, until it is ended. */
  lemma {:induction false} StaysOpen(log: seq<Message>, uri: string, i: nat, j: nat)
    requires Server(log).Some? && i < j <= |log| && Carries(log[i], uri)
    requires forall k | i < k < j :: !Ends(log[k], uri)
    ensures Server(log[..j]).Some? && uri in Server(log[..j]).value
    ensures log[i].version <= Server(log[..j]).value[uri].version
    decreases j
  {
    ServerPrefix(log, j);
    assert log[..j][..j - 1] == log[..j - 1] && log[..j][j - 1] == log[j - 1];
    if i < j - 1 { StaysOpen(log, uri, i, j - 1); }
  }

  /** In a log the server accepts, two texts of a uri with nothing ending it between them
    * are in order: the later is a change, not an open, and has the greater version. */
  lemma TextsInOrder(log: seq<Message>, uri: string, i: nat, j: nat)
    requires Server(log).Some? && i < j < |log| && Carries(log[i], uri) && Carries(log[j], uri)
    requires forall k | i < k < j :: !Ends(log[k], uri)
    ensures log[j].DidChange? && log[i].version < log[j].version
  {
    StaysOpen(log, uri, i, j);
    ServerPrefix(log, j + 1);
    assert log[..j + 1][..j] == log[..j] && log[..j + 1][j] == log[j];
  }

  /** The change that is due for a uri, at its next version: the text of the first tab it
    * names, if it is open and that tab is live. */
  function Due(docs: map<string, Doc>, tabs: seq<Tab>, texts: map<Model, string>, uri: string): seq<Message> {
    var t := TabForUri(tabs, uri);
    if uri in docs && t.Some? && IsLive(t.value, texts)
    then [DidChange(uri, docs[uri].version + 1, texts[t.value.model.value])]
    else []
  }

  /** The text the server is left with: what is due, if something is, or what it had. */
  function TextLeft(tabs: seq<Tab>, texts: map<Model, string>, uri: string, had: string): string {
    var t := TabForUri(tabs, uri);
    if t.Some? && IsLive(t.value, texts) then texts[t.value.model.value] else had
  }

  /** Of the documents `keys`, those in `sent` were left with what was due, the others as
    * they were. */
  ghost predicate SentSo(tabs: seq<Tab>, texts: map<Model, string>, keys: set<string>, sent: set<string>,
                         was: map<string, ServerDoc>, now: map<string, ServerDoc>) {
    forall u | u in keys :: u in was && u in now &&
      now[u].text == if u in sent then TextLeft(tabs, texts, u, was[u].text) else was[u].text
  }

  /** The documents after it: its version has grown. */
  function Bumped(docs: map<string, Doc>, tabs: seq<Tab>, texts: map<Model, string>, uri: string): map<string, Doc> {
    if Due(docs, tabs, texts, uri) == [] then docs else docs[uri := docs[uri].(version := docs[uri].version + 1)]
  }

  /** The document was opened, at version 1, on the first of the tabs its uri names. */
  predicate OpenedOn(live: seq<Tab>, uri: string, doc: Doc) {
    var t := TabForUri(live, uri);
    t.Some? && t.value.model.Some? && doc == Doc(t.value.id, 1, t.value.model.value)
  }

  lemma OpenedOnMore(live: seq<Tab>, t: Tab, docs: map<string, Doc>)
    ensures forall uri | uri in docs && OpenedOn(live, uri, docs[uri]) :: OpenedOn(live + [t], uri, docs[uri])
    ensures Uris(live + [t]) == Uris(live) + {UriForTab(t)}
    ensures UriForTab(t) !in Uris(live) ==> TabForUri(live + [t], UriForTab(t)) == Some(t)
  {
    forall uri | uri in docs && OpenedOn(live, uri, docs[uri])
      ensures OpenedOn(live + [t], uri, docs[uri])
    {
      TabSnoc(live, t, uri);
    }
    AbsentTab(live, UriForTab(t));
    TabSnoc(live, t, UriForTab(t));
  }

  lemma SentMore(tabs: seq<Tab>, texts: map<Model, string>, keys: set<string>, sent: set<string>, uri: string,
                 before: map<string, ServerDoc>, was: map<string, ServerDoc>, now: map<string, ServerDoc>)
    requires SentSo(tabs, texts, keys, sent, before, was) && SentSo(tabs, texts, keys, {uri}, was, now) && uri !in sent
    ensures SentSo(tabs, texts, keys, sent + {uri}, before, now)
  {
  }

  class Client {
    // the page around the client
    var tabs: seq<Tab>
    var texts: map<Model, string>
    // the client
    var available: bool
    var openDocs: map<string, Doc>
    var dirty: set<string>
    // all that was sent
    var log: seq<Message>
    // open uris for which a send was due and did not reach the model they were opened on
    ghost var missed: set<string>

    constructor ()
      ensures Valid() && !available && log == [] && tabs == [] && texts == map[]
    {
      tabs, texts, available, openDocs, dirty, log, missed := [], map[], false, map[], {}, [], {};
    }

    /** The documents the server has. */
    ghost function Docs(): map<string, ServerDoc>
      reads this
      requires Server(log).Some?
    {
      Server(log).value
    }

    /** The server has the text of the model the uri was opened on. */
    ghost predicate Current(uri: string)
      reads this
      requires Server(log).Some? && uri in openDocs && uri in Docs()
    {
      MeetsOwn(uri, Docs()[uri].text)
    }

    /** The protocol was kept; the server has the open documents, at their versions; and
      * each is current, or dirty, or a change of it was missed. */
    ghost predicate Valid()
      reads this
    {
      && Server(log).Some?
      && dirty <= openDocs.Keys && missed <= openDocs.Keys
      && (if available then Docs().Keys == openDocs.Keys else openDocs == map[])
      && (available ==> forall uri | uri in openDocs ::
            Docs()[uri].version == openDocs[uri].version && (Current(uri) || uri in dirty || uri in missed))
    }

    /** A text is that of the model the uri was opened on, or that model is gone. */
    ghost predicate MeetsOwn(uri: string, text: string)
      reads this
      requires uri in openDocs
    {
      openDocs[uri].model in texts ==> text == texts[openDocs[uri].model]
    }

    /** The uri names the live model it was opened on. */
    ghost predicate Names(uri: string)
      reads this
      requires uri in openDocs
    {
      var t := TabForUri(tabs, uri);
      t.Some? && IsLive(t.value, texts) && t.value.model.value == openDocs[uri].model
    }

    // ----- the page -----

    /** Type into a model: every uri opened on it has its timer set. */
    method Edit(m: Model, text: string)
      requires Valid() && m in texts
      modifies this`texts, this`dirty
      ensures Valid() && texts == old(texts)[m := text]
      ensures dirty == old(dirty) + set uri | uri in openDocs && openDocs[uri].model == m
    {
      texts := texts[m := text];
      dirty := dirty + set uri | uri in openDocs && openDocs[uri].model == m;
    }

    method CreateModel(m: Model, text: string)
      requires Valid() && m !in texts && forall uri | uri in openDocs :: openDocs[uri].model != m
      modifies this`texts
      ensures Valid() && texts == old(texts)[m := text]
    {
      texts := texts[m := text];
    }

    method DisposeModel(m: Model)
      requires Valid()
      modifies this`texts
      ensures Valid() && texts == old(texts) - {m}
    {
      texts := texts - {m};
    }

    /** Tabs are opened, closed, renamed and reordered at will. */
    method SetTabs(ts: seq<Tab>)
      requires Valid()
      modifies this`tabs
      ensures Valid() && tabs == ts
    {
      tabs := ts;
    }

    // ----- the client -----

    method Notify(m: Message)
      requires Server(log).Some?
      requires available ==> Receive(Docs(), m).Some?
      modifies this`log
      ensures Server(log) == if available then Receive(old(Docs()), m) else old(Server(log))
      ensures log == if available then old(log) + [m] else old(log)
    {
      if !available { return; }
      ServerSnoc(log, m);
      log := log + [m];
    }

    /** Send a dirty uri, if a tab of that name has a live model. */
    method SendChange(uri: string)
      requires Valid()
      modifies this`dirty, this`openDocs, this`log, this`missed
      ensures Valid() && dirty == old(dirty) - {uri}
      ensures openDocs == Bumped(old(openDocs), tabs, texts, uri) && openDocs.Keys == old(openDocs.Keys)
      ensures forall u | u in openDocs :: Names(u) == old(Names(u))
      ensures forall u | u != uri :: u in missed <==> u in old(missed)
      ensures log == old(log) + Due(old(openDocs), tabs, texts, uri)
      ensures uri in openDocs ==> (uri in missed <==> !Names(uri)) && (uri !in missed ==> Current(uri))
      ensures SentSo(tabs, texts, openDocs.Keys, {uri}, old(Docs()), Docs())
      ensures uri in openDocs ==> (Current(uri) <==> MeetsOwn(uri, TextLeft(tabs, texts, uri, old(Docs()[uri].text))))
    {
      dirty := dirty - {uri};
      if uri !in openDocs { return; }
      missed := missed + {uri};
      var tab := TabForUri(tabs, uri);
      if tab.None? || !IsLive(tab.value, texts) { return; }
      PostChange(uri, tab.value.model.value);
    }

    /** Send a model's text as the next version of an open document. */
    method PostChange(uri: string, m: Model)
      requires Valid() && uri in openDocs && m in texts && uri in missed
      modifies this`openDocs, this`log, this`missed
      ensures Valid()
      ensures var doc := old(openDocs)[uri];
              openDocs == old(openDocs)[uri := doc.(version := doc.version + 1)]
      ensures log == old(log) + [DidChange(uri, openDocs[uri].version, texts[m])]
      ensures missed == if m == openDocs[uri].model then old(missed) - {uri} else old(missed)
      ensures m == openDocs[uri].model ==> Current(uri)
    {
      var entry := openDocs[uri];
      openDocs := openDocs[uri := entry.(version := entry.version + 1)];
      if m == entry.model { missed := missed - {uri}; }
      Notify(DidChange(uri, entry.version + 1, texts[m]));
    }

    /** A timer that is still set goes off. The document is current afterwards if and only if
      * the text sent, or where none is due the text the server had, is its own model's. */
    method Fire(uri: string)
      requires Valid() && uri in dirty
      modifies this`dirty, this`openDocs, this`log, this`missed
      ensures Valid() && dirty == old(dirty) - {uri}
      ensures openDocs == Bumped(old(openDocs), tabs, texts, uri)
      ensures log == old(log) + Due(old(openDocs), tabs, texts, uri)
      ensures (uri in missed <==> !Names(uri)) && (uri !in missed ==> Current(uri))
      ensures Docs()[uri].text == TextLeft(tabs, texts, uri, old(Docs()[uri].text))
      ensures Current(uri) <==> MeetsOwn(uri, TextLeft(tabs, texts, uri, old(Docs()[uri].text)))
    {
      SendChange(uri);
    }

    /** Since the documents missed were `missed0` and the server had `docs0`, a change of each
      * uri in `sent` has been sent if it was due. */
    ghost predicate Flushing(sent: set<string>, missed0: set<string>, docs0: map<string, ServerDoc>)
      reads this
      requires Server(log).Some?
    {
      && SentSo(tabs, texts, openDocs.Keys, sent, docs0, Docs())
      && forall u | u in openDocs :: u in missed <==> if u in sent then !Names(u) else u in missed0
    }

    method FlushOne(uri: string, ghost sent: set<string>, ghost missed0: set<string>,
                    ghost docs0: map<string, ServerDoc>)
      requires Valid() && Flushing(sent, missed0, docs0) && uri !in sent
      modifies this`dirty, this`openDocs, this`log, this`missed
      ensures Valid() && Flushing(sent + {uri}, missed0, docs0)
      ensures dirty == old(dirty) - {uri} && openDocs.Keys == old(openDocs.Keys)
    {
      SendChange(uri);
      SentMore(tabs, texts, openDocs.Keys, sent, uri, docs0, old(Docs()), Docs());
    }

    /** Send whatever is dirty: afterwards nothing is, and the server has every edit of
      * every document whose uri still names its model. */
    method FlushPendingChanges()
      requires Valid()
      modifies this`dirty, this`openDocs, this`log, this`missed
      ensures Valid() && dirty == {} && openDocs.Keys == old(openDocs.Keys)
      ensures forall uri | uri in openDocs ::
                uri in missed <==> if uri in old(dirty) then !Names(uri) else uri in old(missed)
      ensures available ==> forall uri | uri in openDocs && uri !in missed :: Current(uri)
      ensures SentSo(tabs, texts, openDocs.Keys, old(dirty), old(Docs()), Docs())
    {
      var uris := dirty;
      ghost var sent: set<string> := {};
      while uris != {}
        invariant Valid() && uris == dirty && sent !! dirty && sent + dirty == old(dirty)
        invariant openDocs.Keys == old(openDocs.Keys) && Flushing(sent, old(missed), old(Docs()))
        decreases uris
      {
        var uri :| uri in uris;
        FlushOne(uri, sent, old(missed), old(Docs()));
        uris, sent := uris - {uri}, sent + {uri};
      }
      assert sent == old(dirty);
    }

    method OpenDocument(tab: Tab)
      requires Valid() && available
      modifies this`openDocs, this`log, this`missed
      ensures Valid()
      ensures var uri := UriForTab(tab);
              if uri in old(openDocs) || !IsLive(tab, texts) then
                openDocs == old(openDocs) && log == old(log) && missed == old(missed)
              else
                && openDocs == old(openDocs)[uri := Doc(tab.id, 1, tab.model.value)]
                && Docs() == old(Docs())[uri := ServerDoc(1, texts[tab.model.value])] && missed == old(missed) - {uri}
    {
      var uri := UriForTab(tab);
      if uri in openDocs || !IsLive(tab, texts) { return; }
      openDocs := openDocs[uri := Doc(tab.id, 1, tab.model.value)];
      missed := missed - {uri};
      Notify(DidOpen(uri, 1, texts[tab.model.value]));
    }

    method CloseDocument(uri: string)
      requires Valid() && available
      modifies this`dirty, this`openDocs, this`log, this`missed
      ensures Valid() && openDocs == old(openDocs) - {uri} && Docs() == old(Docs()) - {uri}
      ensures dirty <= old(dirty) && missed <= old(missed)
    {
      if uri !in openDocs { return; }
      dirty, openDocs, missed := dirty - {uri}, openDocs - {uri}, missed - {uri};
      Notify(DidClose(uri));
    }

    /** Reconcile with the tab strip: the open documents become the uris of the live tabs;
      * those that stay open are left alone, and those newly opened are current. */
    method Sync()
      requires Valid()
      modifies this`dirty, this`openDocs, this`log, this`missed
      ensures Valid()
      ensures !available ==> openDocs == old(openDocs) && log == old(log)
      ensures available ==> openDocs.Keys == Uris(LiveTabs(tabs, texts))
      ensures available ==> forall uri | uri in openDocs && uri in old(openDocs) ::
                openDocs[uri] == old(openDocs)[uri] && Docs()[uri] == old(Docs())[uri]
      ensures available ==> forall uri | uri in openDocs && uri !in old(openDocs) ::
                uri !in missed && Current(uri) && OpenedOn(LiveTabs(tabs, texts), uri, openDocs[uri])
    {
      if !available { return; }
      var tabs' := LiveTabs(tabs, texts);
      var live := Uris(tabs');
      CloseAll(openDocs.Keys - live);
      OpenAll(tabs');
    }

    /** Since the documents were `base`, and the server had `docs`, nothing has happened to
      * those; */
    ghost predicate Kept(base: map<string, Doc>, docs: map<string, ServerDoc>)
      reads this
      requires Valid() && available
    {
      && base.Keys <= openDocs.Keys && base.Keys <= docs.Keys
      && (forall uri | uri in base :: openDocs[uri] == base[uri] && Docs()[uri] == docs[uri])
    }

    /** and the live tabs have been opened. */
    ghost predicate Opened(base: set<string>, live: seq<Tab>)
      reads this
      requires Valid() && available
    {
      && openDocs.Keys == base + Uris(live)
      && forall uri | uri in openDocs && uri !in base ::
           uri !in missed && Current(uri) && OpenedOn(live, uri, openDocs[uri])
    }

    method OpenAll(live: seq<Tab>)
      requires Valid() && available && forall t | t in live :: IsLive(t, texts)
      modifies this`openDocs, this`log, this`missed
      ensures Valid() && Kept(old(openDocs), old(Docs())) && Opened(old(openDocs.Keys), live)
    {
      var i := 0;
      while i < |live|
        invariant 0 <= i <= |live| && Valid()
        invariant Kept(old(openDocs), old(Docs())) && Opened(old(openDocs.Keys), live[..i])
      {
        OpenNext(live[i], old(openDocs.Keys), live[..i]);
        assert live[..i + 1] == live[..i] + [live[i]];
        i := i + 1;
      }
      assert live[..i] == live;
    }

    method OpenNext(tab: Tab, ghost base: set<string>, ghost done: seq<Tab>)
      requires Valid() && available && IsLive(tab, texts) && Opened(base, done)
      modifies this`openDocs, this`log, this`missed
      ensures Valid() && Kept(old(openDocs), old(Docs())) && Opened(base, done + [tab])
    {
      OpenedOnMore(done, tab, openDocs);
      OpenDocument(tab);
    }

    method CloseAll(uris: set<string>)
      requires Valid() && available
      modifies this`dirty, this`openDocs, this`log, this`missed
      ensures Valid() && openDocs == old(openDocs) - uris && Docs() == old(Docs()) - uris
      ensures dirty <= old(dirty) && missed <= old(missed)
    {
      var rest := uris;
      while rest != {}
        invariant Valid() && rest <= uris
        invariant openDocs == old(openDocs) - (uris - rest) && Docs() == old(Docs()) - (uris - rest)
        invariant dirty <= old(dirty) && missed <= old(missed)
        decreases rest
      {
        var uri :| uri in rest;
        CloseDocument(uri);
        rest := rest - {uri};
      }
    }

    /** The server is ready. */
    method Ready()
      requires Valid() && !available && log == []
      modifies this`dirty, this`openDocs, this`log, this`missed, this`available
      ensures Valid() && available && openDocs.Keys == Uris(LiveTabs(tabs, texts))
      ensures forall uri | uri in openDocs ::
                uri !in missed && Current(uri) && OpenedOn(LiveTabs(tabs, texts), uri, openDocs[uri])
    {
      available := true;
      Sync();
    }

    /** Forget every document and tell the server to. */
    method DropDocuments()
      requires Valid()
      modifies this`dirty, this`openDocs, this`log, this`missed
      ensures Valid() && (available ==> openDocs == map[] && Docs() == map[])
      ensures !available ==> log == old(log)
    {
      if !available { return; }
      dirty, openDocs, missed := {}, map[], {};
      Notify(Reset);
    }

    /** Start over: afterwards the documents are those of the live tabs, all opened anew. */
    method ResetWorkspace()
      requires Valid()
      modifies this`dirty, this`openDocs, this`log, this`missed
      ensures Valid() && (!available ==> log == old(log))
      ensures available ==> openDocs.Keys == Uris(LiveTabs(tabs, texts))
      ensures available ==> forall uri | uri in openDocs ::
                uri !in missed && Current(uri) && OpenedOn(LiveTabs(tabs, texts), uri, openDocs[uri])
    {
      if !available { return; }
      DropDocuments();
      Sync();
    }

    method Dispose()
      requires Valid()
      modifies this`dirty, this`openDocs, this`missed, this`available
      ensures Valid() && !available && openDocs == map[]
    {
      dirty, openDocs, missed, available := {}, map[], {}, false;
    }
  }

  /** Edited, renamed, its timer gone off, and renamed back, a document is open under the
    * name of its own model and clean; and it is what the server has if and only if what its
    * name then meant left the server with the text typed. So it is stale when its name
    * meant nothing and the server had another text, and when its name meant another tab,
    * whose text the server then has in its place. */
  method RenameAwayAndBack(c: Client, uri: string, text: string, away: seq<Tab>)
    requires c.Valid() && c.available && uri in c.openDocs && c.Names(uri)
    modifies c
    ensures c.Valid() && c.available && c.tabs == old(c.tabs) && uri in c.openDocs && c.Names(uri) && uri !in c.dirty
    ensures var left := TextLeft(away, c.texts, uri, old(c.Docs()[uri].text));
            c.Docs()[uri].text == left && (c.Current(uri) <==> left == text) && c.texts[c.openDocs[uri].model] == text
    ensures TabForUri(away, uri).None? ==> uri in c.missed
  {
    var here := c.tabs;
    c.Edit(c.openDocs[uri].model, text);
    c.SetTabs(away);
    c.Fire(uri);
    c.SetTabs(here);
  }
}
