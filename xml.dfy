/**
 * Abstract XML and the server the full-text subsystem runs on.
 *
 * The XML libraries (a pull reader, a streaming writer, a DOM) are replaced by
 * three value types: the nodes a reader visits, the events a writer emits, and
 * element trees. The server is one object holding the files that exist (by
 * path), the directories that exist, and the shell command lines handed to the
 * operating system, in order.
 */
module Xml {
  import opened Php

  /** A node as an XML pull reader presents it: its name, its attributes and `readString()`. */
  datatype Node = Node(name: string, attrs: map<string, string>, content: string)

  /** One step of a streaming XML writer (or reader): start tag, end tag, or text. */
  datatype Event =
    | Open(name: string, attrs: map<string, string>)
    | Close(name: string)
    | Text(text: string)

  /** An element tree as a DOM builds it: name, attributes, text and children. */
  datatype Element = Element(name: string, attrs: map<string, string>, text: string, children: seq<Element>)

  /** `getAttribute`: the attribute's value, or null when it is absent. */
  function Attr(attrs: map<string, string>, key: string): Option<string>
  {
    if key in attrs then Some(attrs[key]) else None
  }

  /** What a file on the server holds: a METS document (as its event stream) or an ALTO tree. */
  datatype Content = Mets(events: seq<Event>) | Alto(root: Element)

  /** A snapshot of the server: files by path, directories, launched command lines. */
  datatype Server = Server(files: map<string, Content>, dirs: set<string>, launched: seq<string>)

  /** The paths `file_exists` answers true for: files and directories alike. */
  function Existing(sv: Server): set<string>
  {
    sv.files.Keys + sv.dirs
  }

  /**
   * The server: existing files with their contents, existing directories, and
   * the command lines passed to `exec`, in the order they were launched.
   */
  class Host {
    var files: map<string, Content>
    var dirs: set<string>
    var launched: seq<string>

    constructor (files0: map<string, Content>, dirs0: set<string>)
      ensures files == files0 && dirs == dirs0 && launched == []
    {
      files := files0;
      dirs := dirs0;
      launched := [];
    }

    function State(): Server
      reads this
    {
      Server(files, dirs, launched)
    }
  }
}
