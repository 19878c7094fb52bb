/**
 * A text file opened with mode `'a'`: every write extends what is there.
 * A file that does not exist yet is one whose content is empty.
 */
module Files {

  class AppendFile {
    var content: string

    constructor (initial: string)
      ensures content == initial
    {
      content := initial;
    }

    /** `f.write(s)` on a file opened for appending. */
    method Write(s: string)
      modifies this
      ensures content == old(content) + s
    {
      content := content + s;
    }
  }
}
