# Briefing form: a verified model

The briefing page of vbdavii/briefing-daviarruda is a React component. It
collects twelve text answers about a business and checks that three of them
are filled in. It then composes a WhatsApp message from all twelve and opens
a `wa.me` deep link that carries the message, percent-encoded.

This project models that component in Dafny:

- `js_string.dfy` (module `JsString`):
  - JavaScript string values as UTF-16 code units;
  - the pairing of surrogates into scalar values, which can fail on a lone surrogate;
  - `String.prototype.trim`, with the white-space table of ECMA-262.
- `types.dfy` (module `Types`):
  - the `FormData` record and the `FormErrors` partial map;
  - the two option lists of the select inputs.
- `uri.dfy` (module `Uri`): `encodeURIComponent` and `decodeURIComponent`, as
  in section 19.2.6 of ECMA-262 and sections 2.1 and 2.3 of RFC 3986.
- `message.dfy` (module `Message`): the message template of the submit handler.
- `app.dfy` (module `App`):
  - the component's state as the class `BriefingForm`;
  - its handlers `HandleChange`, `Validate`, `SendToWhatsApp` and `HandleSubmit`;
  - the specification functions those handlers are proved against.

The browser's `window.open` and `alert` are not performed. They are
appended to a ghost log `effects`, together with every change of the
`isProcessing` flag, so the order of the submit handler's effects can be
stated.

## Model

| member | source | states |
|---|---|---|
| JsString.Decode16Encode16 | App.tsx:46 | pairing the UTF-16 encoding of any scalar sequence gives that sequence back |
| JsString.Encode16Decode16 | App.tsx:46 | a string without lone surrogates is exactly the UTF-16 encoding of its scalar values |
| JsString.Decode16Concat | App.tsx:46 | pairing distributes over concatenation, unless the join pairs a high surrogate with a low one |
| JsString.WellFormedConcat | App.tsx:46 | under the same join condition, the join has no lone surrogate iff neither part has one |
| JsString.StrDecodes | App.tsx:57-93 | a literal of the template, once converted, has exactly the literal's characters as its code points, in order |
| JsString.StrWellFormed | App.tsx:57-93 | a literal of the template never contains a lone surrogate |
| JsString.TrimStartRemovesPrefix | App.tsx:37-39 | trimming the start removes a white-space prefix, and the longest one: what is left is empty or starts with a non-white-space unit |
| JsString.TrimEndRemovesSuffix | App.tsx:37-39 | trimming the end removes the longest white-space suffix |
| JsString.TrimEmptyIffBlank | App.tsx:37-39 | `trim()` yields the empty string exactly when the value is white space only, the empty value included |
| Types.FormData.With | App.tsx:29 | `{ ...prev, [name]: value }` holds `value` at `name` and changes no other field |
| Types.Position | types.ts:1-14 | every field has a place in the declaration order |
| Types.FieldCatalog | types.ts:1-14 | FormData has exactly twelve fields, each listed once, with twelve distinct property names |
| Types.FieldsDetermineRecord | types.ts:1-14 | two records that agree on all twelve fields are equal, so the record is nothing but its fields |
| Types.ServiceTypesDistinct | types.ts:18-22 | exactly three distinct service types, "Local" first |
| Types.LogoOptionsDistinct | types.ts:24-27 | exactly two distinct logo options |
| Uri.EncodeURIComponent | App.tsx:46 | encoding throws a URIError exactly when the string has a lone surrogate |
| Uri.Utf8RoundTrip | App.tsx:46 | the UTF-8 octets of a scalar value are 1 to 4 octets, one exactly for ASCII; a longer sequence announces its length in its lead octet and decodes back to the value |
| Uri.EscapeAllAt | App.tsx:46 | the j-th `%XY` triple of escaped octets reads back as the j-th octet |
| Uri.OctetsOfEscaped | App.tsx:46 | reading back a run of escapes gives the octets, whatever follows them |
| Uri.DecodeOneEncoded | App.tsx:46 | decoding the encoding of one scalar value, followed by anything, reads that value and consumes exactly its encoding |
| Uri.DecodeEncodeScalars | App.tsx:46 | decoding the encoding of any scalar sequence returns it |
| Uri.EncodeDecodeRoundTrip | App.tsx:46 | `decodeURIComponent(encodeURIComponent(s)) == s` for every string the encoder accepts |
| Uri.IsEscapedConcat | App.tsx:46 | concatenating two escaped texts gives an escaped text |
| Uri.EncodeScalarsIsEscaped | App.tsx:46 | the encoder writes only unreserved characters and upper-case `%XY` triples |
| Uri.EscapedCharacters | App.tsx:46 | every character of an escaped text is an unreserved character or `%` |
| Uri.EncodeURIComponentSpec | App.tsx:46 | the encoder succeeds iff the string is well formed; its output is escaped and decodes back to the input |
| Message.RenderConcat | App.tsx:57-93 | rendering a list of sections distributes over concatenation |
| Message.RenderSplit | App.tsx:57-93 | the rendering of a list is the sections before k, then block k, then the sections after it |
| Message.ComposeSection | App.tsx:57-93 | for every k, the message is the greeting, the sections before k, then a blank line, label k, a line break and field k's value verbatim, then the sections after k; section k pairs the k-th label with the k-th field of the record, and this holds for empty values too |
| Message.RenderWellFormed | App.tsx:57-93 | the rendered sections start with a line feed, and are well formed iff every value is |
| Message.ComposeWellFormed | App.tsx:57-93 | the message has a lone surrogate iff some field has one |
| App.WhatsAppUrl | App.tsx:45-46 | building the link throws exactly when the text has a lone surrogate |
| App.WhatsAppUrlCarriesText | App.tsx:45-46 | the link is `https://wa.me/5511936200509?text=` followed by an escaped text that decodes to the message |
| App.ValidationErrorsStepwise | App.tsx:36-39 | the three checks, applied one after another to an empty map, build exactly the specified error map |
| App.TrimsToEmpty | App.tsx:37-39 | `!value.trim()` is true exactly when the value is white space only |
| App.ValidationErrorsExact | App.tsx:36-41 | the errors are exactly the required fields whose trimmed value is empty, each with its own message; no other key appears |
| App.ValidationPassesIffComplete | App.tsx:42 | validation passes iff company name, WhatsApp and services are all non-blank |
| App.RequiredMessagesNonEmpty | App.tsx:37-39 | every error message is non-empty, so a recorded error is truthy |
| App.ValidationErrorsLocal | App.tsx:35-39 | changing one field leaves every other field's validation verdict unchanged |
| App.InitialFormRejected | App.tsx:9-22 | the ten text fields start empty, the selects start on "Local" and the first logo option, and validation of that record fails with all three messages |
| App.ClearErrorDropsOnlyName | App.tsx:30-31 | the change handler drops the field's error when one is shown; it never adds an error and never alters another field's error |
| App.ClearErrorKeepsCurrent | App.tsx:27-33 | after a change, every error still on show is one that validation would report for the new record |
| App.SubmitRejectsIncomplete | App.tsx:50-52 | a submit that fails validation raises no flag, opens nothing and shows no alert |
| App.ProcessingFlagResets | App.tsx:54-102 | a submit that passes validation raises the flag first and lowers it last, and in between either opens a link or shows the alert |
| App.SubmitDispatchesIff | App.tsx:50-102 | a link is opened iff the three fields are filled and no field has a lone surrogate; the alert is shown iff they are filled and some field has one |
| App.DispatchedUrl | App.tsx:45-46 | the one link a successful submit opens carries the composed message, escaped, after the fixed prefix |
| App.BriefingForm.constructor | App.tsx:9-25 | the initial record, no errors, the flag down, nothing done yet |
| App.BriefingForm.HandleChange | App.tsx:27-33 | the record is updated at one field, that field's shown error is cleared, and the class invariant (errors on show are current) is kept |
| App.BriefingForm.Validate | App.tsx:35-43 | the error map is replaced by the one specified from the current record, earlier errors are discarded, and the result is true iff the form is complete |
| App.BriefingForm.SendToWhatsApp | App.tsx:45-48 | either the link is logged as opened, or it throws, exactly when the text has a lone surrogate, and nothing is logged |
| App.BriefingForm.HandleSubmit | App.tsx:50-103 | the errors are those of the record; the effects appended are exactly the specified submit effects in order; the outcome is rejected, dispatched or failed as specified; the flag is down at the end |

`FormErrors` (types.ts:16) is `map<Field, string>`, so its keys are FormData's
field names by construction.

## Left out

- The JSX of App.tsx (lines 105-271), `components/FormInput.tsx` and `components/Button`: presentation only.
- `services/geminiService.ts`: a network call the component never makes.
- `window.open` and `alert`: they are not performed. An opened link and a shown alert are entries of the ghost log `effects`. A failure of `window.open` itself, such as a blocked popup, is not modelled.
- `console.error` in the catch block: it has no effect on the state.
- `e.preventDefault()`: browser event handling.
- React's asynchronous state updates: each handler runs to completion on the current state. Stale closures and batching are not modelled.
- `App.BriefingForm.HandleChange` takes a `Field`, not an arbitrary input name. The twelve `name` attributes of the JSX are exactly the twelve keys.
- Setting a key to `undefined` is modelled as removing it. Nothing reads the key list of the live error map: validation builds a fresh one.
- The select fields are not restricted to the option lists, because the change handler does not enforce them.
- `JsString.Str`: every literal of the component lies in the Basic Multilingual Plane. The conversion would map a character beyond it to U+FFFD rather than to a surrogate pair.
- App.SubmitDispatchesIff: the maximum length of a JavaScript string is not modelled (at most 2^53 - 1 units by ECMA-262, far fewer in real engines). In the program, composing an over-long message or encoding one throws a RangeError inside the `try`, and the submit ends in the alert. The model counts that submit as dispatched, and `App.SubmitOutcomeOf` and `App.SubmitEffects` say the same.
- `Uri.DecodeURIComponent` reads a Dafny string, a sequence of Unicode scalar values. JavaScript's decodeURIComponent also copies a lone surrogate of its input through unchanged; that input cannot be written here. The round trip only decodes encoder output, which is ASCII.
- Error messages and the alert text are Dafny strings, not UTF-16 values. They are only shown, never encoded.
