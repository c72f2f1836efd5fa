/**
 * What `_install_shortcut` computes before touching the filesystem: the
 * command and arguments after the `{{FILEBROWSER}}` and `{{WEBBROWSER}}`
 * sentinels are handled, the `.lnk` file name, the destination directories
 * and the record handed to the shortcut writer.
 */
module Shortcuts {
  import opened Wrappers
  import opened FileSystem
  import opened Quoting

  /** A shortcut spec. `desktop` and `quicklaunch` are false when absent; `icon` is None when absent. */
  datatype ShortcutSpec = ShortcutSpec(
    name: string,
    cmd: seq<string>,
    comment: string,
    icon: Option<string>,
    desktop: bool,
    quicklaunch: bool,
    categories: seq<string>)

  /** The exceptions the installer lets through. */
  datatype Error =
    | IndexError            // `cmd` empty, or `{{FILEBROWSER}}` without a folder
    | KeyError(key: string) // a shortcut category missing from the category map
    | OSError(path: Path)   // a directory that cannot be created, a file that cannot be removed

  /** The shortcut's target and its arguments. */
  datatype Command = Command(target: string, args: seq<string>)

  /** One call of the shortcut writer: target, comment, destination, argument string, extra arguments. */
  datatype LinkRecord = LinkRecord(target: string, comment: string, dst: Path, arguments: string, extra: seq<string>)

  const FileBrowser := "{{FILEBROWSER}}"
  const WebBrowser := "{{WEBBROWSER}}"

  /**
   * The command and arguments of `cmd`: its first element and the rest. A
   * file-browser sentinel gives way to the folder after it; a web-browser
   * sentinel becomes the interpreter `pythonExe` running the browser script
   * with `-t` before the URLs. Indexing past the end raises `IndexError`.
   */
  function Expand(cmd: seq<string>, pythonExe: string, browserScript: string): (r: Result<Command, Error>)
    ensures r.Failure? <==> cmd == [] || (cmd[0] == FileBrowser && |cmd| == 1)
    ensures r.Failure? ==> r.error == IndexError
  {
    if cmd == [] then Failure(IndexError)
    else if cmd[0] == FileBrowser then
      if |cmd| == 1 then Failure(IndexError) else Success(Command(cmd[1], cmd[2..]))
    else if cmd[0] == WebBrowser then
      Success(Command(pythonExe, [browserScript, "-t"] + cmd[1..]))
    else Success(Command(cmd[0], cmd[1..]))
  }

  /** The command line a shortcut runs: its target, then its arguments. */
  function CommandLine(c: Command): seq<string>
  {
    [c.target] + c.args
  }

  /**
   * Expanding keeps the command line of `cmd` except for the sentinel: the
   * file-browser sentinel is dropped, the web-browser one is replaced by the
   * interpreter, the browser script and `-t`.
   */
  lemma ExpandKeepsCommandLine(cmd: seq<string>, pythonExe: string, browserScript: string)
    requires Expand(cmd, pythonExe, browserScript).Success?
    ensures CommandLine(Expand(cmd, pythonExe, browserScript).value)
            == if cmd[0] == FileBrowser then cmd[1..]
               else if cmd[0] == WebBrowser then [pythonExe, browserScript, "-t"] + cmd[1..]
               else cmd
  {
    if cmd[0] == FileBrowser {
      assert cmd[1..] == [cmd[1]] + cmd[2..];
    } else if cmd[0] != WebBrowser {
      assert cmd == [cmd[0]] + cmd[1..];
    }
  }

  /** The link file name. */
  function LinkName(name: string): (r: string)
    ensures |r| == |name| + 4 && r[..|name|] == name && r[|name|..] == ".lnk"
  {
    name + ".lnk"
  }

  /** Distinct shortcut names give distinct link file names. */
  lemma LinkNameInjective(a: string, b: string)
    requires LinkName(a) == LinkName(b)
    ensures a == b
  {
    assert a == LinkName(a)[..|a|];
  }

  /** The extra arguments of the shortcut writer: an empty string and the icon, when there is a non-empty icon. */
  function IconArgs(icon: Option<string>): (r: seq<string>)
    ensures r != [] <==> icon.Some? && icon.value != ""
    ensures r != [] ==> r == ["", icon.value]
  {
    if icon.Some? && icon.value != "" then ["", icon.value] else []
  }

  /**
   * The destination directories: the category's menu directory, then the
   * desktop when the shortcut asks for it and desktop icons are enabled,
   * then quick launch likewise. A category missing from the map raises
   * `KeyError`.
   */
  function DestinationDirs(categoryMap: map<string, Path>, category: string, toDesktop: bool, toLauncher: bool,
                           desktopDir: Path, quickLaunchDir: Path): (r: Result<seq<Path>, Error>)
    ensures r.Failure? <==> category !in categoryMap
    ensures r.Failure? ==> r.error == KeyError(category)
    ensures r.Success? ==>
              |r.value| == 1 + (if toDesktop then 1 else 0) + (if toLauncher then 1 else 0)
              && r.value[0] == categoryMap[category]
              && (toDesktop ==> r.value[1] == desktopDir)
              && (toLauncher ==> r.value[|r.value| - 1] == quickLaunchDir)
  {
    if category !in categoryMap then Failure(KeyError(category))
    else
      Success([categoryMap[category]]
              + (if toDesktop then [desktopDir] else [])
              + (if toLauncher then [quickLaunchDir] else []))
  }

  /** The record written for one destination directory. */
  function Link(s: ShortcutSpec, c: Command, dstDir: Path): LinkRecord
  {
    LinkRecord(Quoted(c.target), s.comment, dstDir + [LinkName(s.name)], ArgString(c.args), IconArgs(s.icon))
  }

  /**
   * A link lands in its directory under the shortcut's link name; its target
   * is the command's, with quotes around it exactly when it holds a space.
   */
  lemma LinkTarget(s: ShortcutSpec, c: Command, dstDir: Path)
    ensures var r := Link(s, c, dstDir);
            && r.dst == dstDir + [LinkName(s.name)]
            && Strip(r.target) == Strip(c.target)
            && (' ' in Strip(c.target) <==> |r.target| >= 2 && r.target[0] == Quote)
            && r.comment == s.comment && r.extra == IconArgs(s.icon)
  {
    QuotedStrip(c.target);
  }

  /** Arguments that read back: not empty and free of quotes once stripped. */
  predicate Readable(args: seq<string>)
  {
    forall i :: 0 <= i < |args| ==> Strip(args[i]) != [] && Quote !in Strip(args[i])
  }

  /**
   * Reading the argument string of a link gives back every argument, with
   * only its surrounding quotes removed: quoting keeps arguments with
   * spaces in one piece.
   */
  lemma LinkArgumentsReadBack(s: ShortcutSpec, c: Command, dstDir: Path)
    requires Readable(c.args)
    ensures Words(Link(s, c, dstDir).arguments) == StripEach(c.args)
  {
    WordsOfArgString(c.args);
  }
}
