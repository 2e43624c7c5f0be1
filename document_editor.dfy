/** The shared meeting-notes editor: the text, whether unsaved typing is
    pending, and when the notes were last saved. Loading falls back to a fixed
    template; typing marks the notes as pending; a save that the server accepts
    clears the mark. Clock readings and server answers are parameters. */
module DocumentEditor {
  import opened Wrappers
  import Text

  const DefaultContent: string := "# Meeting Notes\n\nStart typing your collaborative notes here..."

  /** How loading the document went: an OK response with its `content` field, a
      response that was not OK, or a request that threw. */
  datatype LoadResult = LoadOk(content: Option<string>) | LoadNotOk | LoadFailed

  /** The content shown after loading: `data.content || ""`, or the template. */
  function LoadedContent(result: LoadResult): (r: string)
    ensures !result.LoadOk? ==> r == DefaultContent
    ensures result.LoadOk? && result.content.Some? ==> r == result.content.value
    ensures result.LoadOk? && result.content.None? ==> r == ""
  {
    match result
    case LoadOk(c) => if c.Some? && c.value != "" then c.value else ""
    case _ => DefaultContent
  }

  /** `content.trim().length > 0`: the text is not blank. */
  function HasText(content: string): (r: bool)
    ensures r <==> !Text.IsBlank(content)
  {
    |Text.Trim(content)| > 0
  }

  /** The number of lines, `content.split('\n').length`: one more than there are line breaks. */
  function LineCount(content: string): (r: nat)
    ensures r == Text.Count(content, '\n') + 1
  {
    Text.SplitLength(content, '\n');
    |Text.Split(content, '\n')|
  }

  /** The number of characters, `content.length`. Every line but the last ends in a
      break, so there are at most one more lines than characters. */
  function CharCount(content: string): (r: nat)
    ensures LineCount(content) <= r + 1
  {
    Text.CountAtMostLength(content, '\n');
    |content|
  }

  /** Text without a break is a single line. */
  lemma NoBreakOneLine(content: string)
    ensures '\n' !in content ==> LineCount(content) == 1
  {
    if '\n' !in content {
      Text.SplitNoSep(content, '\n');
    }
  }

  /** The Save button is off while typing is pending or when the text is blank. */
  function SaveDisabled(isTyping: bool, content: string): (r: bool)
    ensures r <==> isTyping || Text.IsBlank(content)
  {
    isTyping || !HasText(content)
  }

  /** The Export button is off when the text is blank. */
  function ExportDisabled(content: string): (r: bool)
    ensures r <==> Text.IsBlank(content)
  {
    !HasText(content)
  }

  /** Whenever Save is available, so is Export; and autosave fires exactly when
      the text has content, typing is pending, and the Save button is therefore off. */
  lemma ButtonsAndAutosave(isTyping: bool, content: string)
    ensures !SaveDisabled(isTyping, content) ==> !ExportDisabled(content)
    ensures (isTyping && HasText(content)) <==> (SaveDisabled(isTyping, content) && !ExportDisabled(content))
  {
  }

  /** The editor's state. */
  class Editor {
    var content: string
    var isTyping: bool
    var lastSaved: int
    var isLoading: bool

    constructor (now: int)
      ensures content == "" && !isTyping && lastSaved == now && isLoading
    {
      content := "";
      isTyping := false;
      lastSaved := now;
      isLoading := true;
    }

    /** The load effect, once it has an answer. */
    method Load(result: LoadResult)
      modifies this`content, this`isLoading
      ensures content == LoadedContent(result) && !isLoading
    {
      content := LoadedContent(result);
      isLoading := false;
    }

    /** `handleContentChange(value)`: the text is replaced; typing becomes pending
        only when the new text is not blank. */
    method ContentChange(value: string)
      modifies this`content, this`isTyping
      ensures content == value
      ensures isTyping == (old(isTyping) || !Text.IsBlank(value))
    {
      content := value;
      if |Text.Trim(value)| > 0 {
        isTyping := true;
      }
    }

    /** `saveDocument` at clock reading `now`: the text is posted; when the server
        answers OK (`accepted`), the save time moves to `now` and nothing is
        pending. Returns the text posted. */
    method Save(now: int, accepted: bool) returns (sent: string)
      modifies this`lastSaved, this`isTyping
      ensures sent == content
      ensures accepted ==> lastSaved == now && !isTyping
      ensures !accepted ==> lastSaved == old(lastSaved) && isTyping == old(isTyping)
    {
      sent := content;
      if accepted {
        lastSaved := now;
        isTyping := false;
      }
    }

    /** The autosave timer firing at `now`: it saves only while typing is pending
        and the text is not blank. Returns the text posted, if any. */
    method AutoSave(now: int, accepted: bool) returns (sent: Option<string>)
      modifies this`lastSaved, this`isTyping
      ensures !(old(isTyping) && HasText(content)) ==>
        sent.None? && isTyping == old(isTyping) && lastSaved == old(lastSaved)
      ensures old(isTyping) && HasText(content) ==>
        sent == Some(content) &&
        (accepted ==> lastSaved == now && !isTyping) &&
        (!accepted ==> lastSaved == old(lastSaved) && isTyping)
    {
      sent := None;
      if isTyping && HasText(content) {
        sent := Some(content);
        if accepted {
          lastSaved := now;
          isTyping := false;
        }
      }
    }
  }
}
