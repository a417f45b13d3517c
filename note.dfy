/** The note transferred across the boundary: a relative path and the whole content. */
module NoteEntity {
  import opened Wrappers

  /** Both fields are nullable Java strings; `None` is `null`. */
  class Note {
    var path: Option<string>
    var content: Option<string>

    /** `new Note()`: both fields unset. */
    constructor Blank()
      ensures path == None && content == None
    {
      path := None;
      content := None;
    }

    /** `new Note(path, content)`: both fields stored as given. */
    constructor (path: Option<string>, content: Option<string>)
      ensures this.path == path && this.content == content
    {
      this.path := path;
      this.content := content;
    }

    method GetPath() returns (p: Option<string>)
      ensures p == path
    {
      p := path;
    }

    /** Updates the path only. */
    method SetPath(p: Option<string>)
      modifies this`path
      ensures path == p && content == old(content)
    {
      path := p;
    }

    method GetContent() returns (c: Option<string>)
      ensures c == content
    {
      c := content;
    }

    /** Updates the content only. */
    method SetContent(c: Option<string>)
      modifies this`content
      ensures content == c && path == old(path)
    {
      content := c;
    }
  }
}
