/**
 * The documentation editor (src/components/DocumentationPanel.tsx): an
 * ordered, duplicate-free tag list, the record emitted on save, and the
 * file name under which a documentation record is exported.
 */
module DocumentationPanel {
  import opened Wrappers
  import opened Types
  import Text

  predicate NoDuplicates(tags: seq<string>)
  {
    forall i, j | 0 <= i < j < |tags| :: tags[i] != tags[j]
  }

  /** `a` can be obtained from `b` by deleting elements: the order of what is kept is unchanged. */
  predicate IsSubsequence(a: seq<string>, b: seq<string>)
    decreases |b|
  {
    if a == [] then true
    else if b == [] then false
    else if a[0] == b[0] then IsSubsequence(a[1..], b[1..])
    else IsSubsequence(a, b[1..])
  }

  /** The list `addTag` leaves: `tag` appended at the end when it is non-empty and new. */
  function WithTag(tags: seq<string>, tag: string): (r: seq<string>)
    ensures |tags| <= |r| && r[..|tags|] == tags
    ensures |r| == if tag != "" && tag !in tags then |tags| + 1 else |tags|
    ensures forall x :: x in r <==> x in tags || (x == tag && tag != "")
    ensures NoDuplicates(tags) ==> NoDuplicates(r)
  {
    if tag != "" && tag !in tags then tags + [tag] else tags
  }

  /** `tags.filter(tag => tag !== tagToRemove)`: every occurrence goes, the rest keep their order. */
  function Without(tags: seq<string>, tag: string): (r: seq<string>)
    ensures tag !in r
    ensures forall x | x != tag :: multiset(r)[x] == multiset(tags)[x]
    ensures IsSubsequence(r, tags)
    decreases |tags|
  {
    if tags == [] then []
    else
      var rest := Without(tags[1..], tag);
      assert tags == [tags[0]] + tags[1..];
      if tags[0] == tag then
        rest
      else
        assert ([tags[0]] + rest)[1..] == rest;
        [tags[0]] + rest
  }

  /** Removing a tag keeps a duplicate-free list duplicate-free. */
  lemma {:induction false} WithoutKeepsNoDuplicates(tags: seq<string>, tag: string)
    requires NoDuplicates(tags)
    ensures NoDuplicates(Without(tags, tag))
    decreases |tags|
  {
    if tags != [] {
      var rest := Without(tags[1..], tag);
      assert NoDuplicates(tags[1..]);
      WithoutKeepsNoDuplicates(tags[1..], tag);
      if tags[0] != tag {
        assert tags[0] !in tags[1..];
        assert multiset(tags[1..])[tags[0]] == 0;
        assert tags[0] !in rest;
        var r := [tags[0]] + rest;
        forall i, j | 0 <= i < j < |r|
          ensures r[i] != r[j]
        {
          if i == 0 {
            assert r[j] == rest[j - 1];
          } else {
            assert r[i] == rest[i - 1] && r[j] == rest[j - 1];
          }
        }
      }
    }
  }

  /** Maps each maximal run of whitespace to a single `-` (`replace(/\s+/g, '-')`). */
  function CollapseWhitespace(s: string): (r: string)
    ensures Text.NoWhitespace(r)
    ensures forall i | 0 <= i < |r| :: r[i] == '-' || r[i] in s
    decreases |s|
  {
    if s == [] then []
    else if Text.IsWhitespace(s[0]) then
      var rest := Text.TrimStart(s);
      var r := "-" + CollapseWhitespace(rest);
      assert forall c | c in rest :: c in s;
      r
    else
      var r := [s[0]] + CollapseWhitespace(s[1..]);
      assert forall c | c in s[1..] :: c in s;
      r
  }

  /** The file-name stem: the title lower-cased, each whitespace run replaced by `-`. */
  function Slug(title: string): (r: string)
    ensures Text.NoWhitespace(r)
    ensures forall i | 0 <= i < |r| :: !Text.IsUpper(r[i])
  {
    CollapseWhitespace(Text.Lower(title))
  }

  /** A string without whitespace is left as it is. */
  lemma {:induction false} CollapseWithoutWhitespace(s: string)
    requires Text.NoWhitespace(s)
    ensures CollapseWhitespace(s) == s
    decreases |s|
  {
    if s != [] {
      CollapseWithoutWhitespace(s[1..]);
    }
  }

  /** Slugging a slug changes nothing. */
  lemma SlugIdempotent(title: string)
    ensures Slug(Slug(title)) == Slug(title)
  {
    var s := Slug(title);
    assert Text.Lower(s) == s;
    CollapseWithoutWhitespace(s);
  }

  /** A whitespace run followed by a non-space (or the end) becomes one `-`. */
  lemma {:induction false} TrimStartSkipsRun(w: string, rest: string)
    requires Text.AllWhitespace(w)
    requires rest == [] || !Text.IsWhitespace(rest[0])
    ensures Text.TrimStart(w + rest) == rest
    decreases |w|
  {
    if w != [] {
      assert (w + rest)[1..] == w[1..] + rest;
      TrimStartSkipsRun(w[1..], rest);
    } else {
      assert w + rest == rest;
    }
  }

  /**
   * A word, then a whitespace run, then the rest: the word is kept, the run
   * becomes exactly one `-`, and the rest is collapsed on its own.
   */
  lemma {:induction false} CollapseRun(word: string, run: string, rest: string)
    requires Text.NoWhitespace(word)
    requires run != [] && Text.AllWhitespace(run)
    requires rest == [] || !Text.IsWhitespace(rest[0])
    ensures CollapseWhitespace(word + run + rest) == word + "-" + CollapseWhitespace(rest)
    decreases |word|
  {
    if word == [] {
      assert word + run + rest == run + rest;
      TrimStartSkipsRun(run, rest);
    } else {
      assert (word + run + rest)[1..] == word[1..] + run + rest;
      CollapseRun(word[1..], run, rest);
    }
  }

  datatype ExportFormat = JsonExport | PdfExport

  function Suffix(format: ExportFormat): string
  {
    match format
    case JsonExport => "-documentation.json"
    case PdfExport => "-documentation.pdf"
  }

  /**
   * The download name of `handleDownloadJSON` / `handleDownloadPDF`: none
   * without documentation, otherwise the slug of its title and the suffix.
   */
  function ExportFileName(documentation: Option<Documentation>, format: ExportFormat): (r: Option<string>)
    ensures r.None? <==> documentation.None?
    ensures r.Some? ==> Text.NoWhitespace(r.value)
    ensures r.Some? ==> |r.value| >= |Suffix(format)| && r.value[|r.value| - |Suffix(format)|..] == Suffix(format)
    ensures r.Some? ==> r.value[..|r.value| - |Suffix(format)|] == Slug(documentation.value.title)
  {
    match documentation
    case None => None
    case Some(doc) =>
      var name := Slug(doc.title) + Suffix(format);
      assert Text.NoWhitespace(Suffix(format));
      Some(name)
  }

  /** The component's state: its `documentation` prop and the six `useState` fields. */
  class PanelState {
    var documentation: Option<Documentation>
    var isEditing: bool
    var title: string
    var description: string
    var notes: string
    var tags: seq<string>
    var newTag: string

    /** Mounting: editing starts on exactly when there is no documentation; fields copy it or are empty. */
    constructor (documentation: Option<Documentation>)
      ensures this.documentation == documentation
      ensures isEditing <==> documentation.None?
      ensures documentation.Some? ==>
        && title == documentation.value.title
        && description == documentation.value.description
        && notes == documentation.value.notes
        && tags == documentation.value.tags
      ensures documentation.None? ==> title == "" && description == "" && notes == "" && tags == []
      ensures newTag == ""
    {
      this.documentation := documentation;
      isEditing := documentation.None?;
      match documentation {
        case None =>
          title, description, notes, tags := "", "", "", [];
        case Some(doc) =>
          title, description, notes, tags := doc.title, doc.description, doc.notes, doc.tags;
      }
      newTag := "";
    }

    /** A new `documentation` prop: `useState` initialisers do not run again, so only the prop changes. */
    method ReceiveDocumentation(doc: Option<Documentation>)
      modifies this`documentation
      ensures documentation == doc
    {
      documentation := doc;
    }

    method EditTitle(value: string)
      modifies this`title
      ensures title == value
    {
      title := value;
    }

    method EditDescription(value: string)
      modifies this`description
      ensures description == value
    {
      description := value;
    }

    method EditNotes(value: string)
      modifies this`notes
      ensures notes == value
    {
      notes := value;
    }

    method EditNewTag(value: string)
      modifies this`newTag
      ensures newTag == value
    {
      newTag := value;
    }

    /** The Edit button. */
    method StartEditing()
      modifies this`isEditing
      ensures isEditing
    {
      isEditing := true;
    }

    /** Appends `newTag` and clears it when it is non-empty and new; otherwise changes nothing. */
    method AddTag()
      modifies this`tags, this`newTag
      ensures tags == WithTag(old(tags), old(newTag))
      ensures old(newTag) != "" && old(newTag) !in old(tags) ==> newTag == ""
      ensures old(newTag) == "" || old(newTag) in old(tags) ==> tags == old(tags) && newTag == old(newTag)
      ensures NoDuplicates(old(tags)) ==> NoDuplicates(tags)
    {
      if newTag != "" && newTag !in tags {
        tags := tags + [newTag];
        newTag := "";
      }
    }

    /** Drops every occurrence of `tag`, keeping the order of the others. */
    method RemoveTag(tag: string)
      modifies this`tags
      ensures tags == Without(old(tags), tag)
      ensures NoDuplicates(old(tags)) ==> NoDuplicates(tags)
    {
      assert NoDuplicates(tags) ==> NoDuplicates(Without(tags, tag)) by {
        if NoDuplicates(tags) {
          WithoutKeepsNoDuplicates(tags, tag);
        }
      }
      tags := Without(tags, tag);
    }

    /** Emits a whole new record from the current fields (nothing is merged) and leaves editing mode. */
    method HandleSave(now: int) returns (saved: Documentation)
      modifies this`isEditing
      ensures saved == Documentation(title, description, notes, tags, now)
      ensures !isEditing
    {
      saved := Documentation(title, description, notes, tags, now);
      isEditing := false;
    }
  }
}
