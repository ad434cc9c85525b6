/**
 * The message composer: a text field with an emoji picker, an attachment dropdown
 * and a send button. Its React state (`inputMessage`, `showEmojiPicker`,
 * `showAttachments`) is the state of class `Composer`; every message handed to the
 * `onSendMessage` prop is recorded, in order, in `sent`.
 */
module ChatInput {
  import opened Wrappers
  import opened JsString

  /** One entry of the attachment dropdown (its icon and colours are presentation). */
  datatype AttachmentOption = AttachmentOption(id: string, labelText: string)

  /** The dropdown's entries, in display order. */
  const AttachmentOptions: seq<AttachmentOption> := [
    AttachmentOption("image", "Enviar Imagem"),
    AttachmentOption("video", "Enviar Vídeo"),
    AttachmentOption("document", "Enviar Documento")
  ]

  /** The dropdown's entries are keyed by their ids, which are distinct. */
  lemma AttachmentIdsDistinct()
    ensures forall i, j | 0 <= i < j < |AttachmentOptions| :: AttachmentOptions[i].id != AttachmentOptions[j].id
  {
  }

  /** The key that sends: Enter without Shift. Shift+Enter never sends. */
  predicate IsSendKey(key: string, shiftKey: bool)
    ensures IsSendKey(key, shiftKey) ==> key == "Enter"
    ensures shiftKey ==> !IsSendKey(key, shiftKey)
  {
    key == "Enter" && !shiftKey
  }

  /** The insertion offset `inputRef.current?.selectionStart || 0`: `caret` is the
      field's selection start, or `None` when the field is not mounted. */
  function CaretOffset(caret: Option<nat>): (p: nat)
    ensures caret.None? ==> p == 0
    ensures caret.Some? ==> p == caret.value
  {
    caret.GetOr(0)
  }

  /** `s.slice(0, p) + e + s.slice(p)`: the text with `e` inserted at offset `p`
      (at the end when `p` lies past it). */
  function InsertAt(s: string, p: nat, e: string): (r: string)
    ensures |r| == |s| + |e|
    ensures p <= |s| ==> r[..p] == s[..p] && r[p..p + |e|] == e && r[p + |e|..] == s[p..]
    ensures p > |s| ==> r == s + e
  {
    SliceTo(s, p) + e + SliceFrom(s, p)
  }

  /** The text with the `n` characters at offset `p` cut out. */
  function RemoveAt(s: string, p: nat, n: nat): (r: string)
    requires p + n <= |s|
    ensures |r| == |s| - n
    ensures r[..p] == s[..p] && r[p..] == s[p + n..]
  {
    s[..p] + s[p + n..]
  }

  /** Cutting the inserted emoji back out at the insertion point gives back the
      original text; the insertion point is `p`, or the end of the text when `p`
      lies past it. */
  lemma InsertRemoveRoundTrip(s: string, p: nat, e: string)
    ensures var q := if p <= |s| then p else |s|;
            q + |e| <= |InsertAt(s, p, e)| && RemoveAt(InsertAt(s, p, e), q, |e|) == s
  {
    var r := InsertAt(s, p, e);
    if p <= |s| {
      assert RemoveAt(r, p, |e|) == r[..p] + r[p + |e|..] == s[..p] + s[p..];
    } else {
      assert r == s + e;
      assert RemoveAt(r, |s|, |e|) == r[..|s|] + r[|s| + |e|..] == s + [];
    }
  }

  /** Where the caret lands after an insertion at `p`: just past the emoji, so that
      the text before it is the old prefix followed by the emoji. */
  lemma CaretAfterEmoji(s: string, p: nat, e: string)
    requires p <= |s|
    ensures var r := InsertAt(s, p, e);
            p + |e| <= |r| && r[..p + |e|] == s[..p] + e && r[p + |e|..] == s[p..]
  {
    var r := InsertAt(s, p, e);
    assert r[..p + |e|] == r[..p] + r[p..p + |e|];
  }

  class Composer {
    /** Whether the `onSendMessage` prop was given. */
    const hasSendHandler: bool
    var inputMessage: string
    var showEmojiPicker: bool
    var showAttachments: bool
    /** Every text handed to `onSendMessage`, oldest first. */
    var sent: seq<string>

    /** Only trimmed, non-blank text is ever sent. */
    ghost predicate Valid()
      reads this
    {
      forall i | 0 <= i < |sent| :: IsTrimmed(sent[i])
    }

    constructor (hasSendHandler: bool)
      ensures Valid()
      ensures this.hasSendHandler == hasSendHandler
      ensures inputMessage == "" && !showEmojiPicker && !showAttachments && sent == []
    {
      this.hasSendHandler := hasSendHandler;
      inputMessage := "";
      showEmojiPicker := false;
      showAttachments := false;
      sent := [];
    }

    /** The field's `onChange`: the typed value replaces the text. */
    method HandleChange(value: string)
      requires Valid()
      modifies this
      ensures Valid()
      ensures inputMessage == value
      ensures showEmojiPicker == old(showEmojiPicker) && showAttachments == old(showAttachments)
      ensures sent == old(sent)
    {
      inputMessage := value;
    }

    /** The paper-clip button flips the attachment dropdown. */
    method ToggleAttachments()
      requires Valid()
      modifies this
      ensures Valid()
      ensures showAttachments == !old(showAttachments)
      ensures inputMessage == old(inputMessage) && showEmojiPicker == old(showEmojiPicker)
      ensures sent == old(sent)
    {
      showAttachments := !showAttachments;
    }

    /** The smiley button flips the emoji picker. */
    method ToggleEmojiPicker()
      requires Valid()
      modifies this
      ensures Valid()
      ensures showEmojiPicker == !old(showEmojiPicker)
      ensures inputMessage == old(inputMessage) && showAttachments == old(showAttachments)
      ensures sent == old(sent)
    {
      showEmojiPicker := !showEmojiPicker;
    }

    /** A document `mousedown`: a press outside the dropdown's container closes the
        dropdown, one outside the picker's container closes the picker. */
    method HandleMouseDown(insideDropdown: bool, insideEmojiPicker: bool)
      requires Valid()
      modifies this
      ensures Valid()
      ensures showAttachments == (old(showAttachments) && insideDropdown)
      ensures showEmojiPicker == (old(showEmojiPicker) && insideEmojiPicker)
      ensures inputMessage == old(inputMessage) && sent == old(sent)
    {
      if !insideDropdown {
        showAttachments := false;
      }
      if !insideEmojiPicker {
        showEmojiPicker := false;
      }
    }

    /** Choosing an attachment, one of the dropdown's entries, only closes the dropdown
        (the upload is not written). */
    method HandleAttachmentClick(option: AttachmentOption)
      requires option in AttachmentOptions
      requires Valid()
      modifies this
      ensures Valid()
      ensures !showAttachments
      ensures inputMessage == old(inputMessage) && showEmojiPicker == old(showEmojiPicker)
      ensures sent == old(sent)
    {
      showAttachments := false;
    }

    /** Inserting an emoji at the caret. `caret` is the field's selection start, or
        `None` when the field is not mounted; `newCaret` is where the caret is put
        afterwards, or `None` when there is no field to put it in. */
    method OnEmojiClick(emoji: string, caret: Option<nat>) returns (newCaret: Option<nat>)
      requires Valid()
      modifies this
      ensures Valid()
      ensures inputMessage == InsertAt(old(inputMessage), CaretOffset(caret), emoji)
      ensures !showEmojiPicker
      ensures newCaret == if caret.None? then None else Some(CaretOffset(caret) + |emoji|)
      ensures showAttachments == old(showAttachments) && sent == old(sent)
    {
      var cursorPosition := CaretOffset(caret);
      inputMessage := SliceTo(inputMessage, cursorPosition) + emoji + SliceFrom(inputMessage, cursorPosition);
      showEmojiPicker := false;
      if caret.Some? {
        newCaret := Some(cursorPosition + |emoji|);
      } else {
        newCaret := None;
      }
    }

    /** Sending: when the trimmed text is not blank and a handler exists, the trimmed
        text is handed to `onSendMessage` and the field is cleared; otherwise nothing
        changes. */
    method HandleSendMessage()
      requires Valid()
      modifies this
      ensures Valid()
      ensures var t := TrimmedIfNotBlank(old(inputMessage));
              if t.Some? && hasSendHandler then sent == old(sent) + [t.value] && inputMessage == ""
              else sent == old(sent) && inputMessage == old(inputMessage)
      ensures showEmojiPicker == old(showEmojiPicker) && showAttachments == old(showAttachments)
    {
      var t := TrimmedIfNotBlank(inputMessage);
      if t.Some? && hasSendHandler {
        sent := sent + [t.value];
        inputMessage := "";
      }
    }

    /** The field's key handler: Enter without Shift sends (and the default action is
        prevented); every other key leaves the composer as it is. */
    method HandleKeyPress(key: string, shiftKey: bool) returns (preventDefault: bool)
      requires Valid()
      modifies this
      ensures Valid()
      ensures preventDefault == IsSendKey(key, shiftKey)
      ensures var t := TrimmedIfNotBlank(old(inputMessage));
              if preventDefault && t.Some? && hasSendHandler then sent == old(sent) + [t.value] && inputMessage == ""
              else sent == old(sent) && inputMessage == old(inputMessage)
      ensures showEmojiPicker == old(showEmojiPicker) && showAttachments == old(showAttachments)
    {
      preventDefault := IsSendKey(key, shiftKey);
      if preventDefault {
        HandleSendMessage();
      }
    }
  }
}
