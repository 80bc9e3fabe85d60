/**
 * The open-component registry: a map from document id to the component that document belongs to.
 * `Sessions.Parallel` models src/libs/parallel.ts and `Sessions.ComponentsEditor` models the
 * `ParallelComponentsEditor` of src/extension.ts. Both register a component under the id of the
 * first file of each of its lists when a document is opened, and drop those ids when one closes.
 */
module Sessions {
  import opened Wrappers
  import opened Text
  import opened DocTypes
  import opened Host
  import Utils
  import Glob
  import Components
  import EditorColumns

  /** `files[t][0] || ''`. */
  function FirstOrEmpty(list: seq<string>): (r: string)
    ensures |list| > 0 ==> r == list[0]
    ensures |list| == 0 ==> r == ""
  {
    if |list| > 0 then list[0] else ""
  }

  /** The ids a component is registered under: for each present list, in the order script, style, template, the id of its first file (or of ''). */
  function MemberIds(files: Components.ComponentFiles, createId: string -> string): (r: seq<string>)
    ensures |r| <= 3
    ensures forall t :: files.Get(t).Some? ==> createId(FirstOrEmpty(files.Get(t).value)) in r
    ensures forall k :: k in r ==> exists t :: files.Get(t).Some? && k == createId(FirstOrEmpty(files.Get(t).value))
  {
    var idOf := (list: Option<seq<string>>) => if list.Some? then [createId(FirstOrEmpty(list.value))] else [];
    assert files.Get(Script) == files.script && files.Get(Style) == files.style && files.Get(Template) == files.template;
    idOf(files.script) + idOf(files.style) + idOf(files.template)
  }

  /** The registry after `c` is set under the id of each list's first file. */
  function RegisterComponent(m: map<string, Components.Component>, c: Components.Component, createId: string -> string): map<string, Components.Component>
    reads c`componentFiles
  {
    Register(m, MemberIds(c.componentFiles, createId), c)
  }

  /** `components.set(id, component)` for every id, in order. */
  function Register<V>(m: map<string, V>, ids: seq<string>, v: V): (r: map<string, V>)
    ensures forall k :: k in r <==> k in m || k in ids
    ensures forall k :: k in ids ==> r[k] == v
    ensures forall k :: k in m && k !in ids ==> r[k] == m[k]
  {
    if |ids| == 0 then m
    else
      var init := ids[..|ids| - 1];
      assert ids == init + [ids[|ids| - 1]];
      Register(m, init, v)[ids[|ids| - 1] := v]
  }

  /** `components.delete(id)` for every id, in order. */
  function Unregister<V>(m: map<string, V>, ids: seq<string>): (r: map<string, V>)
    ensures forall k :: k in r <==> k in m && k !in ids
    ensures forall k :: k in r ==> r[k] == m[k]
  {
    if |ids| == 0 then m
    else
      var init := ids[..|ids| - 1];
      assert ids == init + [ids[|ids| - 1]];
      Unregister(m, init) - {ids[|ids| - 1]}
  }

  /**
   * Closing after opening: the ids a component was registered under are gone, and every other
   * entry is what it was before the component was registered.
   */
  lemma RegisterThenUnregister<V>(m: map<string, V>, ids: seq<string>, v: V)
    ensures Unregister(Register(m, ids, v), ids) == Unregister(m, ids)
  {
    var a := Unregister(Register(m, ids, v), ids);
    var b := Unregister(m, ids);
    assert forall k :: k in a <==> k in b;
    assert forall k :: k in a ==> a[k] == b[k];
  }

  /** `uri.replace(/^file:\/\//, '')`. */
  function StripScheme(uri: string): (r: string)
    ensures StartsWith(uri, "file://") ==> uri == "file://" + r
    ensures !StartsWith(uri, "file://") ==> r == uri
  {
    StripPrefix(uri, "file://")
  }

  /** What `onClose` does once the component is found: parallel.ts reads `scriptFiles[0] as string`, so an empty script list hashes `undefined`, which throws. */
  function CloseIds(files: Components.ComponentFiles, createId: string -> string, strictScript: bool): (r: Result<seq<string>, Error>)
    ensures r.Failure? <==> strictScript && files.script == Some([])
    ensures r.Success? ==> r.value == MemberIds(files, createId)
  {
    if strictScript && files.script == Some([]) then Failure(TypeError("createId(undefined)"))
    else Success(MemberIds(files, createId))
  }

  /** The record `open()` leaves in `c`, given the record `prior` it held before: `getComponentFiles()` fills it once. */
  function Reopened(c: Components.Component, prior: Components.ComponentFiles): Components.ComponentFiles {
    Components.Filled(c.uri, c.Classes(), c.io.readdir(Components.ComponentDir(c.uri)), c.exts, prior)
  }

  /**
   * What showing the component of `uri` looked up under `key` leaves behind: the registered component,
   * or a fresh one for the stripped uri, holds the record `open()` fills from the one it had; every other
   * registered component keeps its record.
   */
  twostate predicate Shown(registered: map<string, Components.Component>, key: string, uri: string, io: Io, exts: Extnames, new c: Components.Component)
    reads c, registered.Values
  {
    && (key in registered ==> c == registered[key] && c.componentFiles == Reopened(c, old(registered[key].componentFiles)))
    && (key !in registered ==>
          fresh(c) && c.uri == StripScheme(uri) && c.id == io.createId(StripScheme(uri)) && c.io == io && c.exts == exts
          && c.componentFiles == Reopened(c, Components.NoFiles))
    && forall k :: k in registered && registered[k] != c ==> registered[k].componentFiles == old(registered[k].componentFiles)
  }

  /**
   * The body shared by both `showComponent`s once the uri passed the directory test: the component
   * registered under `id`, or a new one for `uri`, then `open()`. A failure is the exception that
   * `open()` throws; `c` is then the component whose record it left uncompleted.
   */
  method Present(components: map<string, Components.Component>, id: string, uri: string, io: Io, exts: Extnames, columnsOrder: seq<string>)
    returns (c: Components.Component, actions: Result<seq<EditorColumns.Action>, Error>)
    modifies components.Values
    ensures Shown(components, id, uri, io, exts, c)
    ensures actions.Success? <==> c.componentFiles.completed
    ensures actions.Success? ==> actions.value == EditorColumns.OpenFor(c.componentFiles, columnsOrder)
    ensures actions.Failure? ==> actions.error == NotADirectory(Components.ComponentDir(c.uri))
  {
    if id in components {
      c := components[id];
    } else {
      c := new Components.Component(uri, io, exts);
    }
    actions := EditorColumns.Open(c, columnsOrder);
  }

  /** src/libs/parallel.ts. */
  class Parallel {
    var components: map<string, Components.Component>
    const io: Io
    const exts: Extnames
    const columnsOrder: seq<string>
    /** The case-insensitive glob test "some directory is `{patterns}{s,}` and the base name has a dot" over the merged configured directories; the names it uses are not defined by src/config.ts. */
    const inConfiguredDir: string -> bool

    constructor (io: Io, exts: Extnames, columnsOrder: seq<string>, inConfiguredDir: string -> bool)
      ensures components == map[]
      ensures this.io == io && this.exts == exts && this.columnsOrder == columnsOrder && this.inConfiguredDir == inConfiguredDir
    {
      components := map[];
      this.io := io;
      this.exts := exts;
      this.columnsOrder := columnsOrder;
      this.inConfiguredDir := inConfiguredDir;
    }

    /**
     * `showComponent(uri)`: the registered component of the stripped uri, or a new one, opened;
     * nothing when the uri is outside the configured directories. A failure is the exception of `open()`.
     */
    method ShowComponent(uri: string) returns (c: Components.Component?, actions: Result<seq<EditorColumns.Action>, Error>)
      modifies components.Values
      ensures components == old(components)
      ensures c == null <==> !inConfiguredDir(uri)
      ensures c == null ==> actions == Success([])
      ensures c != null ==> Shown(components, io.createId(StripScheme(uri)), uri, io, exts, c)
      ensures c != null ==> (actions.Success? <==> c.componentFiles.completed)
      ensures c != null && actions.Success? ==> actions.value == EditorColumns.OpenFor(c.componentFiles, columnsOrder)
      ensures c != null && actions.Failure? ==> actions.error == NotADirectory(Components.ComponentDir(c.uri))
    {
      var id := io.createId(StripScheme(uri));
      if !inConfiguredDir(uri) {
        return null, Success([]);
      }
      var registered := components;
      c, actions := Present(registered, id, uri, io, exts, columnsOrder);
      assert components == registered;
    }

    /**
     * `openComponent(uri)`: show the component, then register it under the id of each list's first
     * file. When showing throws, nothing is registered and the exception is the result.
     */
    method OpenComponent(uri: string) returns (c: Components.Component?, err: Option<Error>)
      modifies this`components, components.Values
      ensures c == null <==> !inConfiguredDir(uri)
      ensures c == null || err.Some? ==> components == old(components)
      ensures c == null ==> err.None?
      ensures c != null ==> Shown(old(components), io.createId(StripScheme(uri)), uri, io, exts, c)
      ensures c != null ==> (err.None? <==> c.componentFiles.completed)
      ensures c != null && err.Some? ==> err.value == NotADirectory(Components.ComponentDir(c.uri))
      ensures c != null && err.None? ==> components == RegisterComponent(old(components), c, io.createId)
    {
      var actions;
      c, actions := ShowComponent(uri);
      if actions.Failure? {
        return c, Some(actions.error);
      }
      err := None;
      if c != null {
        Record(c);
      }
    }

    /** `components.set(id, component)` for each of the component's ids. */
    method Record(c: Components.Component)
      modifies this`components
      ensures components == RegisterComponent(old(components), c, io.createId)
    {
      components := RegisterComponent(components, c, io.createId);
    }

    /** `onClose(document)`: if the closed file belongs to a registered component, drop that component's ids. */
    method OnClose(uri: string) returns (err: Option<Error>)
      modifies this
      ensures var id := io.createId(StripScheme(uri));
        id !in old(components) ==> components == old(components) && err.None?
      ensures var id := io.createId(StripScheme(uri));
        id in old(components) ==>
          match CloseIds(old(components)[id].componentFiles, io.createId, true)
          case Failure(e) => components == old(components) && err == Some(e)
          case Success(ids) => components == Unregister(old(components), ids) && err.None?
    {
      var id := io.createId(StripScheme(uri));
      err := None;
      if id in components {
        var files := components[id].componentFiles;
        match CloseIds(files, io.createId, true)
        case Failure(e) =>
          err := Some(e);
        case Success(ids) =>
          components := Unregister(components, ids);
      }
    }
  }

  /** `dir.replace(/^[\/\\]/, '')`. */
  function StripLeadingSep(dir: string): (r: string)
    ensures |dir| > 0 && Utils.IsSep(dir[0]) ==> dir == [dir[0]] + r
    ensures !(|dir| > 0 && Utils.IsSep(dir[0])) ==> r == dir
  {
    if |dir| > 0 && Utils.IsSep(dir[0]) then dir[1..] else dir
  }

  function StripLeadingSeps(dirs: seq<string>): (r: seq<string>)
    ensures |r| == |dirs| && forall i :: 0 <= i < |dirs| ==> r[i] == StripLeadingSep(dirs[i])
  {
    seq(|dirs|, i requires 0 <= i < |dirs| => StripLeadingSep(dirs[i]))
  }

  /** The case-insensitive glob test of src/extension.ts over `config.directories` with each leading separator removed. */
  predicate InDirectories(uri: string, directories: seq<string>) {
    Glob.InDirWithDot(uri, StripLeadingSeps(directories))
  }

  /** The `ParallelComponentsEditor` of src/extension.ts. */
  class ComponentsEditor {
    var components: map<string, Components.Component>
    const io: Io
    const exts: Extnames
    const columnsOrder: seq<string>
    const directories: seq<string>
    /** The directory test of `showComponent`, fixed by the settings. */
    const inDirectories: string -> bool

    constructor (io: Io, exts: Extnames, columnsOrder: seq<string>, directories: seq<string>)
      ensures components == map[]
      ensures this.io == io && this.exts == exts && this.columnsOrder == columnsOrder && this.directories == directories
      ensures forall uri :: inDirectories(uri) == InDirectories(uri, directories)
    {
      components := map[];
      this.io := io;
      this.exts := exts;
      this.columnsOrder := columnsOrder;
      this.directories := directories;
      this.inDirectories := uri => InDirectories(uri, directories);
    }

    /**
     * `showComponent(uri)`: looks up the id of the uri as given (scheme included) and opens the
     * component when the uri lies in a configured directory. A failure is the exception of `open()`.
     */
    method ShowComponent(uri: string) returns (c: Components.Component?, actions: Result<seq<EditorColumns.Action>, Error>)
      modifies components.Values
      ensures components == old(components)
      ensures c == null <==> !inDirectories(uri)
      ensures c == null ==> actions == Success([])
      ensures c != null ==> Shown(components, io.createId(uri), uri, io, exts, c)
      ensures c != null ==> (actions.Success? <==> c.componentFiles.completed)
      ensures c != null && actions.Success? ==> actions.value == EditorColumns.OpenFor(c.componentFiles, columnsOrder)
      ensures c != null && actions.Failure? ==> actions.error == NotADirectory(Components.ComponentDir(c.uri))
    {
      var id := io.createId(uri);
      if !inDirectories(uri) {
        return null, Success([]);
      }
      var registered := components;
      c, actions := Present(registered, id, uri, io, exts, columnsOrder);
      assert components == registered;
    }

    /**
     * `openComponent(uri)`: show the component, then register it under the id of each list's first
     * file. When showing throws, nothing is registered and the exception is the result.
     */
    method OpenComponent(uri: string) returns (c: Components.Component?, err: Option<Error>)
      modifies this`components, components.Values
      ensures c == null <==> !inDirectories(uri)
      ensures c == null || err.Some? ==> components == old(components)
      ensures c == null ==> err.None?
      ensures c != null ==> Shown(old(components), io.createId(uri), uri, io, exts, c)
      ensures c != null ==> (err.None? <==> c.componentFiles.completed)
      ensures c != null && err.Some? ==> err.value == NotADirectory(Components.ComponentDir(c.uri))
      ensures c != null && err.None? ==> components == RegisterComponent(old(components), c, io.createId)
    {
      var actions;
      c, actions := ShowComponent(uri);
      if actions.Failure? {
        return c, Some(actions.error);
      }
      err := None;
      if c != null {
        Record(c);
      }
    }

    /** `components.set(id, component)` for each of the component's ids. */
    method Record(c: Components.Component)
      modifies this`components
      ensures components == RegisterComponent(old(components), c, io.createId)
    {
      components := RegisterComponent(components, c, io.createId);
    }

    /** `onClose(document)`: if the closed file belongs to a registered component, drop that component's ids. */
    method OnClose(uri: string)
      modifies this
      ensures var id := io.createId(StripScheme(uri));
        id !in old(components) ==> components == old(components)
      ensures var id := io.createId(StripScheme(uri));
        id in old(components) ==> components == Unregister(old(components), MemberIds(old(components)[id].componentFiles, io.createId))
    {
      var id := io.createId(StripScheme(uri));
      if id in components {
        var files := components[id].componentFiles;
        components := Unregister(components, MemberIds(files, io.createId));
      }
    }
  }
}
