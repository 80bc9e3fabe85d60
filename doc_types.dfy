/** The three member types, the extension lists configured for them, and the errors the engine can raise. */
module DocTypes {

  datatype DocType = Script | Style | Template

  /** Processing order of the types (`TYPES` in the source): script, style, template. */
  const TYPES: seq<DocType> := [Script, Style, Template]

  function Name(t: DocType): string {
    match t
    case Script => "script"
    case Style => "style"
    case Template => "template"
  }

  /** Position of a type in the priority order script > style > template. */
  function Rank(t: DocType): nat {
    match t
    case Script => 0
    case Style => 1
    case Template => 2
  }

  /** A record with one field per member type (`{script, style, template}` in the source). */
  datatype ByType<T> = ByType(script: T, style: T, template: T) {
    function Get(t: DocType): T {
      match t
      case Script => script
      case Style => style
      case Template => template
    }

    function Set(t: DocType, v: T): (r: ByType<T>)
      ensures r.Get(t) == v
      ensures forall u :: u != t ==> r.Get(u) == Get(u)
    {
      match t
      case Script => this.(script := v)
      case Style => this.(style := v)
      case Template => this.(template := v)
    }
  }

  /** The configured extensions of each type (`scriptExts`, `styleExts`, `templateExts`). */
  type Extnames = ByType<seq<string>>

  /** `[...scriptExts, ...styleExts, ...templateExts]`. */
  function AllExts(e: Extnames): seq<string> {
    e.script + e.style + e.template
  }

  /** What a JavaScript exception in the modelled code carries. */
  datatype Error =
    | TypeError(reason: string)   // a property read or call on `undefined`
    | NoSuchFile(path: string)    // `fs.readFileSync` on a missing file
    | NotADirectory(path: string) // `fs.readdirSync` or the klaw-sync walk on a missing path or a file (ENOENT, ENOTDIR)
}
