# Chat front-end components, modelled in Dafny

This project models the three components of the chat front-end that hold real logic:

- the **message composer** (`ChatInput`): the text field, emoji insertion at the caret, the
  attachment dropdown, and the send gate (trim, drop blank text, clear after a send);
- the **message bubble** (`ChatBubble`): the edit/delete state machine (`isEditing`,
  `editedText`, `showActions`) and what the bubble renders for a message (status indicator,
  action menu, one body per `tipo`);
- the **profile header** (`InfoUsuario`): avatar-file checks, the name validator and the
  rename skip test, the storage file names of avatars, the avatar initial, the upload
  handler's `uploading` flag, and logout's removal of the `sb-` storage keys.

The conversation view that hosts these components is not part of this model. It renders a
fixed list of six messages (src/components/ChatContent.tsx:19-66), its send handler only logs
(src/components/ChatContent.tsx:69-72), and it gives the bubbles no `onEdit` or `onDelete`
(src/components/ChatContent.tsx:132).

Layout, one module per file:

- `wrappers.dfy` — `Wrappers.Option`, for JavaScript's optional values.
- `js_string.dfy` — `JsString`: the JavaScript string built-ins the components call. These are
  `trim` (with ECMAScript's white-space and line-terminator set), `slice` with offset
  clamping, `split(c)[0]`, `split(c).pop()`, `startsWith`, `charAt`, `toUpperCase` (over
  Latin-1), and the decimal text of a number in a template literal.
- `chat_input.dfy` — `ChatInput`: class `Composer` plus the insertion functions and lemmas.
- `chat_bubble.dfy` — `ChatBubble`: class `Bubble` plus the rendering functions.
- `info_usuario.dfy` — `InfoUsuario`: the checks and file-name functions and lemmas, class
  `WebStorage` (a browser storage) and class `ProfileHeader`.

Each component's React state is a class with those fields. Every handler is a method that
states the component's whole new state. Calls to the optional props `onSendMessage`,
`onEdit` and `onDelete` are recorded in order in a sequence field. Whether a prop was given
is a constant of the object. The sequences also carry invariants that every method keeps:

- The composer only ever sends trimmed, non-blank text.
- A bubble only ever sends non-blank trimmed edits, always naming its own message.

The answers of the confirmation and input dialogs are parameters of the handlers, as are
the backend's results and the clock readings. Requests sent to the backend are recorded in
order in `ProfileHeader.requests`.

The upload handler awaits its loading dialog (src/components/InfoUsuario.tsx:128-136). That
dialog has no confirm button and clicking outside it does nothing, and nothing else closes it
before the `await` returns. So the handler only goes on once the user dismisses the dialog
(for example with Escape). The model makes that dismissal an input, `loadingDismissed`. While
the dialog is open, the handler has not finished and `uploading` stays `true`.

## Model

| member | source | states |
|---|---|---|
| `JsString.LeadingWhiteSpace` | src/components/ChatInput.tsx:101 | the length of the leading white-space run: that prefix is all white space and the next character is not |
| `JsString.TrailingWhiteSpace` | src/components/ChatInput.tsx:101 | the length of the trailing white-space run: that suffix is all white space and the character before it is not |
| `JsString.IsWhiteSpace` | src/components/ChatInput.tsx:101 | definition only: the ECMAScript white-space and line-terminator characters that `trim()` removes |
| `JsString.Trim` | src/components/ChatInput.tsx:101-102 | `trim()` is the infix between an all-white-space prefix and an all-white-space suffix; it is empty iff the input is blank, and otherwise starts and ends with non-white-space (these determine it uniquely) |
| `JsString.TrimIdempotent` | src/components/ChatInput.tsx:102 | trimming the trimmed text changes nothing |
| `JsString.TrimmedIfNotBlank` | src/components/ChatBubble.tsx:40-41 | the test `s.trim() && …` passes iff `s` is not blank, and then yields the trimmed, non-empty text |
| `JsString.StartsWith` | src/components/InfoUsuario.tsx:304 | definition only: `s.startsWith(p)`, `p` is a prefix of `s` |
| `JsString.SliceTo` | src/components/ChatInput.tsx:80 | `slice(0, p)` is the prefix of length `p`, clamped to the string's length |
| `JsString.SliceFrom` | src/components/ChatInput.tsx:82 | `slice(p)` is the suffix from `p`, or empty when `p` lies past the end |
| `JsString.SlicesJoin` | src/components/ChatInput.tsx:79-82 | the two slices at one offset put back together give the whole string |
| `JsString.CharAt` | src/components/InfoUsuario.tsx:30 | `charAt(i)` is the one character at `i`, or empty past the end |
| `JsString.LastSplitPart` | src/components/InfoUsuario.tsx:139 | `split(c).pop()` is a suffix free of `c` that is either the whole string or preceded by `c` |
| `JsString.FirstSplitPart` | src/components/InfoUsuario.tsx:144 | `split(c)[0]` is a prefix free of `c` that is either the whole string or followed by `c` |
| `JsString.LastSplitPartAfterSeparator` | src/components/InfoUsuario.tsx:144 | the last part of `a + c + b` is `b` when `b` holds no `c` |
| `JsString.FirstSplitPartBeforeSeparator` | src/components/InfoUsuario.tsx:144 | the first part of `a + c + b` is `a` when `a` holds no `c` |
| `JsString.DecimalString` | src/components/InfoUsuario.tsx:140 | `${n}` is a non-empty string of decimal digits that starts with `0` only for zero |
| `JsString.DecimalRoundTrip` | src/components/InfoUsuario.tsx:165 | reading back the decimal text of `n` gives `n` |
| `JsString.UpperChar` | src/components/InfoUsuario.tsx:30 | a–z map to A–Z, every other ASCII character is kept; the upper-case form of one character is one or two characters |
| `JsString.ToUpperCase` | src/components/InfoUsuario.tsx:30 | the upper-cased string is at least as long as the input and at most twice as long |
| `JsString.ToUpperCaseAppend` | src/components/InfoUsuario.tsx:30 | upper-casing distributes over concatenation |
| `JsString.ToUpperCaseOfChar` | src/components/InfoUsuario.tsx:30 | upper-casing a one-character string gives that character's `UpperChar` form, so `toUpperCase` works character by character |
| `JsString.UpperCharIdempotent` | src/components/InfoUsuario.tsx:30 | the upper-case form of a character is its own upper-case form |
| `JsString.ToUpperCaseIdempotent` | src/components/InfoUsuario.tsx:30 | upper-casing an upper-cased string changes nothing |
| `ChatInput.AttachmentIdsDistinct` | src/components/ChatInput.tsx:15-46 | the dropdown's three entries, which are keyed by id, have distinct ids |
| `ChatInput.IsSendKey` | src/components/ChatInput.tsx:108 | only Enter sends, and never with Shift held |
| `ChatInput.CaretOffset` | src/components/ChatInput.tsx:78 | the insertion offset is the selection start, or 0 without a mounted field |
| `ChatInput.InsertAt` | src/components/ChatInput.tsx:79-82 | inserting at `p` keeps the prefix before `p`, places the emoji at `p` and the old suffix after it, grows the length by the emoji's; past the end it appends |
| `ChatInput.RemoveAt` | src/components/ChatInput.tsx:79-82 | cutting `n` characters at `p` keeps the prefix and the suffix after them |
| `ChatInput.InsertRemoveRoundTrip` | src/components/ChatInput.tsx:79-82 | cutting the emoji back out at the insertion point gives back the original text |
| `ChatInput.CaretAfterEmoji` | src/components/ChatInput.tsx:89 | the caret at `p + |emoji|` sits just past the emoji: before it the old prefix and the emoji, after it the old suffix |
| `ChatInput.Composer.constructor` | src/components/ChatInput.tsx:49-51 | empty field, dropdown and picker closed, nothing sent |
| `ChatInput.Composer.HandleChange` | src/components/ChatInput.tsx:189 | typing replaces the text and changes nothing else |
| `ChatInput.Composer.ToggleAttachments` | src/components/ChatInput.tsx:121 | the paper-clip button flips the dropdown |
| `ChatInput.Composer.ToggleEmojiPicker` | src/components/ChatInput.tsx:160 | the smiley button flips the picker |
| `ChatInput.Composer.HandleMouseDown` | src/components/ChatInput.tsx:56-64 | a press outside the dropdown closes it, one outside the picker closes it, independently |
| `ChatInput.Composer.HandleAttachmentClick` | src/components/ChatInput.tsx:70-74 | choosing one of the dropdown's entries closes the dropdown and leaves the text and the picker alone |
| `ChatInput.Composer.OnEmojiClick` | src/components/ChatInput.tsx:76-98 | the text becomes the insertion at the caret offset, the picker closes, and the caret goes to offset + emoji length when the field is mounted |
| `ChatInput.Composer.HandleSendMessage` | src/components/ChatInput.tsx:100-105 | with non-blank text and a handler: exactly the trimmed text is sent and the field cleared; otherwise nothing changes; sent texts stay trimmed and non-blank |
| `ChatInput.Composer.HandleKeyPress` | src/components/ChatInput.tsx:107-112 | Enter without Shift prevents the default and sends as above; every other key changes nothing |
| `ChatBubble.RenderStatus` | src/components/ChatBubble.tsx:114-130 | an indicator iff the message was sent and has a status; the read badge iff the status is `lido`; sent and delivered get the check mark |
| `ChatBubble.Bodies` | src/components/ChatBubble.tsx:242-244 | exactly one body is rendered, the one matching `tipo` |
| `ChatBubble.FooterStatus` | src/components/ChatBubble.tsx:191 | the footer shows an indicator iff the body is text or image and the message was sent with a status; it is then `RenderStatus`'s |
| `ChatBubble.OriginalText` | src/components/ChatBubble.tsx:23 | the message text, or `''` when it has none (the draft an edit starts from and Escape restores) |
| `ChatBubble.SavedText` | src/components/ChatBubble.tsx:40-41 | a save hands text to `onEdit` iff the handler exists and the text is not blank; that text is the trimmed edit |
| `ChatBubble.Bubble.constructor` | src/components/ChatBubble.tsx:22-24 | not editing, draft is the message text or `''`, menu closed, no calls made |
| `ChatBubble.Bubble.HandleEdit` | src/components/ChatBubble.tsx:33-37 | editing starts from the message text (or `''`), the menu closes and is not shown, and a text message shows the edit field |
| `ChatBubble.Bubble.HandleChange` | src/components/ChatBubble.tsx:181 | typing replaces the draft and changes nothing else |
| `ChatBubble.Bubble.HandleSaveEdit` | src/components/ChatBubble.tsx:39-44 | `onEdit(id, trimmed draft)` is recorded exactly when `SavedText` allows it; editing always ends and the edit field is gone, also when the blank edit is discarded |
| `ChatBubble.Bubble.HandleBlur` | src/components/ChatBubble.tsx:183 | leaving the field saves, as above |
| `ChatBubble.Bubble.HandleKeyDown` | src/components/ChatBubble.tsx:46-53 | Enter saves; Escape ends editing, hides the edit field and restores the draft to the message text with no call; other keys change nothing |
| `ChatBubble.Bubble.HandleDelete` | src/components/ChatBubble.tsx:73-75 | `onDelete(id)` is recorded iff the dialog was confirmed and the handler exists; nothing else changes |
| `ChatBubble.Bubble.HandleCopy` | src/components/ChatBubble.tsx:78-97 | a message with non-empty text is copied, the menu closes and the "Mensagem copiada!" toast is shown; otherwise nothing happens |
| `ChatBubble.Bubble.ActionMenuShown` | src/components/ChatBubble.tsx:135 | the copy/edit/delete menu shows for a sent text message while the menu is open and no edit is under way, so never together with the edit field |
| `ChatBubble.Bubble.EditorShown` | src/components/ChatBubble.tsx:176 | the line-176 condition: the edit field shows only while an edit of a text message is under way; the handlers' contracts (`HandleEdit` shows it, saving, blur and Escape hide it) state when it holds |
| `ChatBubble.Bubble.HandleMessageClick` | src/components/ChatBubble.tsx:99-102 | a click on the message flips the menu |
| `ChatBubble.Bubble.HandleClickOutside` | src/components/ChatBubble.tsx:105-112 | a click elsewhere closes the menu, which is then not shown |
| `InfoUsuario.ValidateFile` | src/components/InfoUsuario.tsx:117-123 | accepted iff JPEG or PNG and at most 1048576 bytes; a wrong type is reported whatever the size; too large only for an allowed type |
| `InfoUsuario.FileErrorMessage` | src/components/InfoUsuario.tsx:117-122 | definition only: the message thrown for a wrong type and for a too-large file |
| `InfoUsuario.NameError` | src/components/InfoUsuario.tsx:228-239 | no message iff the length is 3 to 50; the empty, too-short and too-long messages each exactly on their range |
| `InfoUsuario.RenameTarget` | src/components/InfoUsuario.tsx:243-245 | the rename goes ahead iff the dialog was confirmed with a non-empty value different from the current full name, and then with that value |
| `InfoUsuario.ValidatedNameIsRenamedUnlessUnchanged` | src/components/InfoUsuario.tsx:228-245 | for a confirmed value the validator accepted, only an unchanged name skips the update |
| `InfoUsuario.FileExtension` | src/components/InfoUsuario.tsx:139 | the extension holds no dot; it is the whole name when there is no dot, and otherwise the name is `before + "." + extension` |
| `InfoUsuario.OldFileName` | src/components/InfoUsuario.tsx:144 | the extracted old file name holds no `/` and no `?` |
| `InfoUsuario.NewFileName` | src/components/InfoUsuario.tsx:140 | the stored name starts with the user id, has extension `ext` when `ext` holds no dot, and holds no `/` or `?` when neither the id nor `ext` does |
| `InfoUsuario.NewFileNameDeterminesTime` | src/components/InfoUsuario.tsx:140 | the stored name carries the clock reading: two names for the same id and extension are equal only for the same `Date.now()` |
| `InfoUsuario.CdnUrl` | src/components/InfoUsuario.tsx:165 | the stored URL starts with the public URL, and cutting it at its first `?` gives back a public URL that has no query |
| `InfoUsuario.CdnUrlDeterminesTime` | src/components/InfoUsuario.tsx:165 | the cache-busting query carries the clock reading: two URLs for the same public URL are equal only for the same `Date.now()` |
| `InfoUsuario.StoredName` | src/components/InfoUsuario.tsx:139-140 | the name an upload stores starts with the user's id text and has the picked file's extension (`id-now.ext` gives back `ext`) |
| `InfoUsuario.DigitsHoldNoSeparator` | src/components/InfoUsuario.tsx:165 | decimal digits hold no `/` and no `?` |
| `InfoUsuario.OldFileNameOfCdnUrl` | src/components/InfoUsuario.tsx:144 | the name read back from `base/name?t=now` is `name`, for a name without `/` or `?` |
| `InfoUsuario.ExtensionHoldsNoSeparator` | src/components/InfoUsuario.tsx:139 | a picked name without `/` or `?` gives an extension without them |
| `InfoUsuario.UploadedAvatarIsNextRemoved` | src/components/InfoUsuario.tsx:139-165 | when the public URL of the stored name is `base/<name>`, the name read back from the cache-busted URL `base/<name>?t=now` is the stored name, so it is the file the next upload removes; the user id and the picked file's extension must hold no `/` or `?` |
| `InfoUsuario.GetInitial` | src/components/InfoUsuario.tsx:30 | the initial is empty iff the name is, and otherwise the `UpperChar` form of the first character (a lower-case ASCII letter becomes its capital); the initial is already upper case |
| `InfoUsuario.Face` | src/components/InfoUsuario.tsx:37-58 | the picture is shown iff the URL is non-empty, otherwise the initial |
| `InfoUsuario.IsSessionKey` | src/components/InfoUsuario.tsx:304 | definition only: a key starting with `sb-` |
| `InfoUsuario.WithoutSessionKeys` | src/components/InfoUsuario.tsx:303-307 | exactly the keys that do not start with `sb-` remain, with their values |
| `InfoUsuario.OldAvatarName` | src/components/InfoUsuario.tsx:142-147 | a removal is made exactly for a non-empty avatar URL whose extracted name is not empty, and it names that name, which holds no `/` or `?` |
| `InfoUsuario.UserIdText` | src/components/InfoUsuario.tsx:140 | definition only: `${user?.id}`, the id, or `undefined` when nobody is signed in |
| `InfoUsuario.UserId` | src/components/InfoUsuario.tsx:171 | definition only: `user?.id` as a query value, absent when nobody is signed in |
| `InfoUsuario.ThrownText` | src/components/InfoUsuario.tsx:202 | definition only: an `Error`'s message, or the fallback text for anything else thrown |
| `InfoUsuario.UploadRequests` | src/components/InfoUsuario.tsx:142-182 | the whole request sequence: the old avatar's removal (when there is one) first, then the upload, then the URL update iff the upload succeeded, then the reload iff both succeeded; nothing else |
| `InfoUsuario.UploadToast` | src/components/InfoUsuario.tsx:185-208 | success, with "Sua foto foi atualizada", iff neither the upload nor the URL update failed; otherwise the text of the first error, or the fallback message |
| `InfoUsuario.WebStorage.RemoveItem` | src/components/InfoUsuario.tsx:305 | `removeItem` drops that key and nothing else |
| `InfoUsuario.WebStorage.Clear` | src/components/InfoUsuario.tsx:310 | `clear` empties the storage |
| `InfoUsuario.ProfileHeader.constructor` | src/components/InfoUsuario.tsx:103-106 | dropdown closed, not uploading, no requests |
| `InfoUsuario.ProfileHeader.ToggleDropdown` | src/components/InfoUsuario.tsx:360 | the arrow button flips the dropdown |
| `InfoUsuario.ProfileHeader.HandleFileChange` | src/components/InfoUsuario.tsx:112-214 | no file: nothing; a rejected file: its error toast and no request, `uploading` never set; otherwise the upload's requests, toast and user; once finished, on every path `uploading` is false and the file input is `''` |
| `InfoUsuario.ProfileHeader.Upload` | src/components/InfoUsuario.tsx:139-196 | old avatar removed first (when there is one), then the upload under `id-now.ext`, then the profile's new URL and the reload, each only after the previous step succeeded; the first error gives the error toast |
| `InfoUsuario.ProfileHeader.HandleEditName` | src/components/InfoUsuario.tsx:216-286 | skipped exactly when `RenameTarget` says so; otherwise one rename request, then the error toast, or the new profile with the dropdown closed and the success toast |
| `InfoUsuario.ProfileHeader.HandleLogout` | src/components/InfoUsuario.tsx:288-317 | when confirmed: local storage keeps exactly its non-`sb-` keys with their values, session storage is empty, sign-out is requested and the page goes to `/`; otherwise nothing changes |

## Left out

- Presentation: JSX, CSS classes, SVG icons, the emoji picker widget and the audio and image
  bodies' markup.
- The `setTimeout` that moves the caret, focusing fields, the clipboard write and
  `window.location`: `OnEmojiClick` returns the caret, `HandleCopy` returns the copied text and its toast,
  and `location` records the target.
- The document listeners are modelled by the methods that react to them (`HandleMouseDown`,
  `HandleClickOutside`), not their registration and removal.
- Dialogs and toasts (SweetAlert2): every dialog answer is a parameter, and every toast is a
  returned value (its text; icon, position and timer are presentation).
- Backend calls (Supabase auth, storage and `profiles` table) and the auth hook: their results
  are parameters, and the requests are recorded values. What `getPublicUrl` returns is a
  parameter. Errors the storage removal call reports are ignored by the code, as in the model.
- `UploadedAvatarIsNextRemoved`: the round trip from an upload to the next one's removal holds
  only under two assumptions about the backend. `getPublicUrl(fileName)` must end in
  `/fileName`, and the reloaded profile must carry the URL just written. `publicUrl` and
  `fetched` are free parameters of `HandleFileChange`, so the class itself does not establish
  either.
- The `console` logging in `handleAttachmentClick` and `handleLogout`'s `catch` block. No modelled step in
  `handleLogout` throws, so that catch path does not occur in the model.
- Opening the file chooser (`handleAvatarClick`) and the avatar image's `onError` fallback URL.
- Asynchrony: each handler runs from start to end once its awaited answers are given (apart from
  the loading dialog described above). Interleavings of two running handlers are not modelled.
- Whether a bubble's blur also fires when Enter or Escape unmounts the edit field depends on the
  browser; the model treats blur as its own event.
- Strings are sequences of Unicode characters. JavaScript's UTF-16 length counts a character
  outside the Basic Multilingual Plane as two code units; the model counts it once. This affects
  the name validator's 3 and 50 limits, and above all the caret: `CaretOffset`, `InsertAt` and
  `OnEmojiClick`'s `newCaret` count characters, while `selectionStart` and `emoji.length` count
  code units, and nearly every emoji lies outside that plane.
- `JsString.UpperChar`: case mapping is modelled over Latin-1 only, because a full Unicode case
  table is beyond this model; other characters are kept unchanged, so `GetInitial` differs from
  `toUpperCase` for initials outside Latin-1. The contract states the ASCII cases; the Latin-1
  letters above ASCII are given by the definition alone.
