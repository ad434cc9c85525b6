/**
 * One message bubble. Its React state (`isEditing`, `editedText`, `showActions`) is
 * the state of class `Bubble`; the calls it makes to the optional `onEdit` and
 * `onDelete` props are recorded, in order, in `callbacks`. What it renders for the
 * message is given by pure functions over the message.
 */
module ChatBubble {
  import opened Wrappers
  import opened JsString

  datatype Tipo = Texto | Audio | Imagem

  datatype Status = Enviado | Entregue | Lido

  /** A message as the bubble receives it; `texto`, `duracao`, `imagem` and `status`
      are optional fields. */
  datatype Mensagem = Mensagem(
    id: int,
    texto: Option<string>,
    horario: string,
    enviada: bool,
    tipo: Tipo,
    duracao: Option<string>,
    imagem: Option<string>,
    status: Option<Status>)

  /** The delivery indicator: none, the "read" badge, or the plain check mark. */
  datatype StatusIcon = NoIcon | ReadBadge | CheckMark

  /** The three body renderers. */
  datatype Body = TextoBody | AudioBody | ImagemBody

  /** A call the bubble makes to one of its props. */
  datatype Callback = Edited(id: int, novoTexto: string) | Deleted(id: int)

  /** `mensagem.texto || ''`. */
  function OriginalText(m: Mensagem): (r: string)
    ensures m.texto.Some? ==> r == m.texto.value
    ensures m.texto.None? ==> r == ""
  {
    m.texto.GetOr("")
  }

  /** `renderStatus`: an indicator only for a sent message that carries a status; the
      read status has its own badge, sent and delivered share the check mark. */
  function RenderStatus(m: Mensagem): (icon: StatusIcon)
    ensures icon != NoIcon <==> m.enviada && m.status.Some?
    ensures icon == ReadBadge <==> m.enviada && m.status == Some(Lido)
    ensures icon == CheckMark <==> m.enviada && m.status.Some? && m.status.value in {Enviado, Entregue}
  {
    if !m.enviada || m.status.None? then NoIcon
    else match m.status.value
      case Lido => ReadBadge
      case Enviado => CheckMark
      case Entregue => CheckMark
  }

  /** The bodies rendered for `tipo`: three independent `tipo === …` tests, of which
      exactly one holds. */
  function Bodies(m: Mensagem): (r: seq<Body>)
    ensures |r| == 1
    ensures r[0] == TextoBody <==> m.tipo == Texto
    ensures r[0] == AudioBody <==> m.tipo == Audio
    ensures r[0] == ImagemBody <==> m.tipo == Imagem
  {
    (if m.tipo == Texto then [TextoBody] else [])
    + (if m.tipo == Audio then [AudioBody] else [])
    + (if m.tipo == Imagem then [ImagemBody] else [])
  }

  /** The indicator in the bubble's footer: the text and image bodies show
      `renderStatus`, the audio body shows none. */
  function FooterStatus(m: Mensagem): (icon: StatusIcon)
    ensures icon != NoIcon <==> m.tipo != Audio && m.enviada && m.status.Some?
    ensures icon != NoIcon ==> icon == RenderStatus(m)
  {
    if Bodies(m)[0] == AudioBody then NoIcon else RenderStatus(m)
  }

  /** The title of the toast shown after a copy. */
  const CopiedToast := "Mensagem copiada!"

  /** What a save with `editedText` hands to `onEdit`: the trimmed text, when it is not
      blank and the handler exists. */
  function SavedText(editedText: string, hasOnEdit: bool): (r: Option<string>)
    ensures r.Some? <==> hasOnEdit && !IsBlank(editedText)
    ensures r.Some? ==> IsTrimmed(r.value) && r.value == Trim(editedText)
  {
    if hasOnEdit then TrimmedIfNotBlank(editedText) else None
  }

  class Bubble {
    const mensagem: Mensagem
    /** Whether the `onEdit` and `onDelete` props were given. */
    const hasOnEdit: bool
    const hasOnDelete: bool
    var isEditing: bool
    var editedText: string
    var showActions: bool
    /** Every call made to `onEdit` or `onDelete`, oldest first. */
    var callbacks: seq<Callback>

    /** Every call names this bubble's message, and no edit is ever blank or
        untrimmed. */
    ghost predicate Valid()
      reads this
    {
      forall i | 0 <= i < |callbacks| ::
        callbacks[i].id == mensagem.id && (callbacks[i].Edited? ==> IsTrimmed(callbacks[i].novoTexto))
    }

    /** The action menu (copy, edit, delete) is shown: for a text message the user sent,
        while the menu is open and no edit is under way. It is never shown together
        with the edit field. */
    predicate ActionMenuShown()
      reads this
      ensures ActionMenuShown() ==> !EditorShown()
    {
      mensagem.tipo == Texto && mensagem.enviada && showActions && !isEditing
    }

    /** The edit field replaces the text of a text message while an edit is under way;
        the other kinds of message never show it. */
    predicate EditorShown()
      reads this
      ensures EditorShown() ==> isEditing && mensagem.tipo == Texto
    {
      mensagem.tipo == Texto && isEditing
    }

    constructor (mensagem: Mensagem, hasOnEdit: bool, hasOnDelete: bool)
      ensures Valid()
      ensures this.mensagem == mensagem && this.hasOnEdit == hasOnEdit && this.hasOnDelete == hasOnDelete
      ensures !isEditing && editedText == OriginalText(mensagem) && !showActions && callbacks == []
    {
      this.mensagem := mensagem;
      this.hasOnEdit := hasOnEdit;
      this.hasOnDelete := hasOnDelete;
      isEditing := false;
      editedText := OriginalText(mensagem);
      showActions := false;
      callbacks := [];
    }

    /** The edit button: start editing from the message's text and close the menu. */
    method HandleEdit()
      requires Valid()
      modifies this
      ensures Valid()
      ensures isEditing && editedText == OriginalText(mensagem) && !showActions
      ensures !ActionMenuShown()
      ensures mensagem.tipo == Texto ==> EditorShown()
      ensures callbacks == old(callbacks)
    {
      isEditing := true;
      editedText := OriginalText(mensagem);
      showActions := false;
    }

    /** The edit field's `onChange`. */
    method HandleChange(value: string)
      requires Valid()
      modifies this
      ensures Valid()
      ensures editedText == value
      ensures isEditing == old(isEditing) && showActions == old(showActions) && callbacks == old(callbacks)
    {
      editedText := value;
    }

    /** Saving: the trimmed text goes to `onEdit` when it is not blank and the handler
        exists; editing ends either way, also when a blank edit is discarded. */
    method HandleSaveEdit()
      requires Valid()
      modifies this
      ensures Valid()
      ensures var t := SavedText(old(editedText), hasOnEdit);
              callbacks == old(callbacks) + (if t.Some? then [Edited(mensagem.id, t.value)] else [])
      ensures !isEditing && !EditorShown()
      ensures editedText == old(editedText) && showActions == old(showActions)
    {
      var t := TrimmedIfNotBlank(editedText);
      if t.Some? && hasOnEdit {
        callbacks := callbacks + [Edited(mensagem.id, t.value)];
      }
      isEditing := false;
    }

    /** The edit field's `onBlur`: the same as saving. */
    method HandleBlur()
      requires Valid()
      modifies this
      ensures Valid()
      ensures var t := SavedText(old(editedText), hasOnEdit);
              callbacks == old(callbacks) + (if t.Some? then [Edited(mensagem.id, t.value)] else [])
      ensures !isEditing && !EditorShown()
      ensures editedText == old(editedText) && showActions == old(showActions)
    {
      HandleSaveEdit();
    }

    /** The edit field's `onKeyDown`: Enter saves; Escape ends editing and restores the
        message's text without calling `onEdit`; any other key changes nothing. */
    method HandleKeyDown(key: string)
      requires Valid()
      modifies this
      ensures Valid()
      ensures key == "Enter" ==>
                var t := SavedText(old(editedText), hasOnEdit);
                && callbacks == old(callbacks) + (if t.Some? then [Edited(mensagem.id, t.value)] else [])
                && !isEditing && !EditorShown() && editedText == old(editedText)
      ensures key == "Escape" ==>
                callbacks == old(callbacks) && !isEditing && !EditorShown() && editedText == OriginalText(mensagem)
      ensures key != "Enter" && key != "Escape" ==>
                callbacks == old(callbacks) && isEditing == old(isEditing) && editedText == old(editedText)
      ensures showActions == old(showActions)
    {
      if key == "Enter" {
        HandleSaveEdit();
      } else if key == "Escape" {
        isEditing := false;
        editedText := OriginalText(mensagem);
      }
    }

    /** The delete button, once the confirmation dialog has answered: `onDelete` is
        called only when the user confirmed and the handler exists. */
    method HandleDelete(isConfirmed: bool)
      requires Valid()
      modifies this
      ensures Valid()
      ensures callbacks == old(callbacks) + (if isConfirmed && hasOnDelete then [Deleted(mensagem.id)] else [])
      ensures isEditing == old(isEditing) && editedText == old(editedText) && showActions == old(showActions)
    {
      if isConfirmed && hasOnDelete {
        callbacks := callbacks + [Deleted(mensagem.id)];
      }
    }

    /** The copy button: a message with non-empty text is handed to the clipboard
        (`copied`), the menu closes and the success toast `toast` is shown; otherwise
        nothing happens. */
    method HandleCopy() returns (copied: Option<string>, toast: Option<string>)
      requires Valid()
      modifies this
      ensures Valid()
      ensures copied.Some? <==> mensagem.texto.Some? && mensagem.texto.value != ""
      ensures copied.Some? ==> copied == mensagem.texto && !showActions
      ensures toast.Some? <==> copied.Some?
      ensures toast.Some? ==> toast.value == CopiedToast
      ensures copied.None? ==> showActions == old(showActions)
      ensures isEditing == old(isEditing) && editedText == old(editedText) && callbacks == old(callbacks)
    {
      if mensagem.texto.Some? && mensagem.texto.value != "" {
        copied := mensagem.texto;
        showActions := false;
        toast := Some(CopiedToast);
      } else {
        copied := None;
        toast := None;
      }
    }

    /** A click on the message flips the menu (the click does not reach the document). */
    method HandleMessageClick()
      requires Valid()
      modifies this
      ensures Valid()
      ensures showActions == !old(showActions)
      ensures isEditing == old(isEditing) && editedText == old(editedText) && callbacks == old(callbacks)
    {
      showActions := !showActions;
    }

    /** A click anywhere else in the document closes the menu. */
    method HandleClickOutside()
      requires Valid()
      modifies this
      ensures Valid()
      ensures !showActions && !ActionMenuShown()
      ensures isEditing == old(isEditing) && editedText == old(editedText) && callbacks == old(callbacks)
    {
      showActions := false;
    }
  }
}
