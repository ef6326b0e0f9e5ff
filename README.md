# Gallery lightbox, contact-form and scroll-spy logic of the qiraindustries page script

`script.js` is the behaviour layer of one marketing page. Most of it is style
assignments, timers and DOM plumbing. This project models the parts of it that
hold state or decide something, and proves what they promise:

- **Gallery index** (`Gallery`, `initGallery`). There is one `{src, alt}` record
  per `.gallery-item`, in document order. Clicking item `i` opens the lightbox
  at position `i`.
- **Lightbox session** (`Lightbox`, `openLightbox`). The class `Session` holds
  the state captured by one `openLightbox` call:
  - the image list, which is never changed;
  - `idx`, i.e. `currentImageIndex`;
  - what the overlay shows: the image and whether the prev/next buttons are
    visible;
  - the lifecycle flags: `open` (no close requested yet), `attached` (the
    overlay is in the document), `keyHandlerRegistered`, and the number of
    removal timers still pending.

  Its methods are `ShowPrev`, `ShowNext`, `UpdateImage`, `HandleKey`, the
  three ways of closing, and `FinishRemoval`, which is the 300 ms removal timer
  firing. Navigation clamps at both ends and never wraps around. After every
  step the view equals `Render(images, idx)`.

  The model keeps the script's close-button behaviour. `closeLightbox` is
  reassigned at script.js:482 to a wrapper that also unregisters the keydown
  handler. The close button was bound at script.js:460 to the original
  function. So closing with the button leaves the key handler registered, and
  arrow keys still move `idx` afterwards. Escape and backdrop clicks look the
  name up when they run, so they use the wrapper. `ButtonCloseKeepsArrowKeys`
  and `EscapeCloseReleasesKeys` state both outcomes. The comment at
  script.js:480 says the listener is cleaned up when the lightbox closes. The
  code does that only for Escape and backdrop closes, and the model follows
  the code.
- **Email check** (`Email`, `isValidEmail`). The check is the regular expression
  `^[^\s@]+@[^\s@]+\.[^\s@]+$`. It is computed by splitting at the first `@`,
  and the model proves this equal to the language of the expression. It is a
  simplified check, not the addr-spec grammar of section 3.4.1 of RFC 5322.
- **Contact-form validation** (`ContactForm`). The checks return early, in a
  fixed order:
  1. a blank name or email gives the required-fields error;
  2. otherwise a rejected email gives the valid-email error;
  3. otherwise the form is submitted.

  Address, phone and message are never looked at.
- **Active navigation link** (`ScrollSpy`, the scroll handler of
  `initScrollEffects`). The current section is the last one, in document order,
  whose band `[offsetTop-150, offsetTop-150+offsetHeight)` contains the scroll
  offset. If no section matches, it is `""`. Exactly the links whose `href` is
  `"#" + current` end up active. When no section matches, that means the links
  whose `href` is a bare `"#"`.

The inputs the browser supplies are parameters: key names, whether a click's
target is the overlay, scroll offsets, section offsets and the gallery markup.
Timer expiry is the explicit `FinishRemoval` step.

## Model

| member | source | states |
|---|---|---|
| `Gallery.BuildIndex` | script.js:264-271 | The index has one record per gallery item, in document order, each equal to that item's image. If any item has no image, building fails (`None`), which is the exception that abandons `initGallery`. |
| `Gallery.ClickedItemIsValidStart` | script.js:273-277 | When the index was built, clicking item `i` gives a start position inside the index, and the record at `i` is item `i`'s own image. |
| `Lightbox.NextIndex` | script.js:436-441 | `showNextImage` moves one step forward exactly when the position is before the last image and otherwise stays put. The result stays within `[0, len)`. |
| `Lightbox.PrevIndex` | script.js:429-434 | `showPrevImage` moves one step back exactly when the position is after the first image and otherwise stays put. The result stays within `[0, len)`. |
| `Lightbox.MovesUndo` | script.js:429-441 | A successful next-move is undone by a prev-move, and a successful prev-move by a next-move. |
| `Lightbox.NextTimesStopsAtLast` | script.js:436-441 | `n` next-moves from `i` reach `min(i + n, len - 1)`: they go one image at a time, then stay on the last image. |
| `Lightbox.PrevTimesStopsAtFirst` | script.js:429-434 | `n` prev-moves from `i` reach `max(i - n, 0)`: they go one image at a time, then stay on the first image. |
| `Lightbox.Render` | script.js:418-427 | The rendered image is `images[idx]`. The prev button is hidden iff `idx == 0`. The next button is hidden iff `idx == len - 1`. |
| `Lightbox.BothHiddenIffSingle` | script.js:424-426 | Both navigation buttons are hidden exactly when the gallery has one image. |
| `Lightbox.KeyActionOf` | script.js:468-476 | Escape closes, ArrowLeft goes back, ArrowRight goes forward, and every other key does nothing. |
| `Lightbox.Session.Open` | script.js:281-478 | Opening at a valid start attaches the overlay and shows `images[start]` with the button visibility for `start`. The key handler is registered and no removal is pending. Styling, hover effects and the fade-in in between are not modelled. |
| `Lightbox.Session.UpdateImage` | script.js:418-427 | The view becomes `Render(images, idx)`. The position and lifecycle flags are unchanged. |
| `Lightbox.Session.ShowPrev` | script.js:429-434 | The new position is `PrevIndex` of the old one, the view matches it, and the lifecycle flags are unchanged. |
| `Lightbox.Session.ShowNext` | script.js:436-441 | The new position is `NextIndex` of the old one, the view matches it, and the lifecycle flags are unchanged. |
| `Lightbox.Session.Close` | script.js:451-458 | The original close starts the fade-out and schedules one more removal. It leaves the key handler, position and view as they were. |
| `Lightbox.Session.CloseAndUnregister` | script.js:481-485 | The reassigned close unregisters the key handler, then performs the original close. |
| `Lightbox.Session.CloseViaButton` | script.js:460 | A close-button click runs the original close, so the key handler's registration is unchanged. |
| `Lightbox.Session.CloseViaBackdrop` | script.js:461-465 | A click whose target is the overlay closes through the wrapper and unregisters the key handler. A click on anything inside the overlay changes nothing. |
| `Lightbox.Session.HandleKey` | script.js:468-478 | With the handler registered, Escape closes and unregisters, ArrowLeft and ArrowRight move by `PrevIndex`/`NextIndex`, and other keys change nothing. Without the handler, no key changes anything. |
| `Lightbox.Session.FinishRemoval` | script.js:453-457 | A removal timer detaches the overlay if it is still attached and does nothing otherwise. |
| `Lightbox.ClickGalleryItem` | script.js:273-277 | Clicking item `i` of a built gallery opens a session at `i` showing that item's image. |
| `Lightbox.ButtonCloseKeepsArrowKeys` | script.js:460-485 | After a close-button close the key handler is still registered, and ArrowRight still advances the position. |
| `Lightbox.EscapeCloseReleasesKeys` | script.js:468-485 | After an Escape close the key handler is gone, and ArrowRight leaves the position unchanged. |
| `Lightbox.BackdropCloseReleasesKeys` | script.js:461-485 | A click on the content leaves the session open. A backdrop click closes it and removes the key handler, so ArrowLeft does nothing afterwards. |
| `Lightbox.DoubleCloseIsHarmless` | script.js:451-458 | After two closes, the first removal detaches the overlay and the second finds it gone and changes nothing. |
| `Lightbox.ThreeImageWalk` | script.js:418-476 | For the gallery `[a, b, c]` opened at `b`: both buttons show; ArrowRight shows `c` and hides next; a second ArrowRight changes nothing; Escape closes and unregisters the handler. |
| `Email.IsValidEmail` | script.js:195-198 | `isValidEmail` itself: the string is split at its first `@`. An accepted string has at least five characters, and its first and last characters are neither whitespace nor `@`. Its exact language is stated by the two lemmas below. |
| `Email.IsValidEmailMatchesPattern` | script.js:195-198 | The split-at-`@` check accepts exactly the strings the regular expression matches. |
| `Email.IsValidEmailIffLocalAtDomain` | script.js:195-198 | `isValidEmail(s)` holds iff `s` is `L + "@" + D` with `L` non-empty, neither part containing whitespace or `@`, and `D` having a `.` that is neither its first nor its last character. |
| `Email.ValidEmailHasOneAt` | script.js:196 | An accepted address has exactly one `@`, and it is not the first character. |
| `ContactForm.Validate` | script.js:162-171 | A blank name or email gives the required-fields error. Otherwise a rejected email gives the valid-email error. Otherwise the form is submitted. |
| `ContactForm.SubmittedIff` | script.js:162-171 | A form is submitted exactly when its name is non-empty and its email matches the address pattern. |
| `ContactForm.NotificationText` | script.js:164-185 | The required-fields and valid-email messages each identify their outcome: a message equals one of them exactly when the outcome is that error. |
| `ContactForm.NotificationType` | script.js:164-185 | The type is "success" exactly for a submitted form and "error" for both rejections. |
| `ContactForm.NotificationForForm` | script.js:163-185 | A form ends with the success notice iff its name is non-blank and its email matches the pattern. It gets the required-fields message iff the name or email is blank, and the valid-email message iff both are given but the email does not match. |
| `ContactForm.OnlyNameAndEmailChecked` | script.js:155-171 | Forms with the same name and email have the same outcome, whatever their address, phone and message. |
| `ScrollSpy.LastCovering` | script.js:127-135 | The result is the last section whose band contains the offset, or none exactly when no section's band contains it. |
| `ScrollSpy.CurrentSection` | script.js:127-135 | The forward loop that overwrites `current` ends with the id of the last covering section, or `""`. |
| `ScrollSpy.Highlight` | script.js:137-142 | Afterwards a link is active exactly when it has an `href` attribute equal to `"#" + current`. A link without `href` (`getAttribute` gives `null`) is never active. |
| `ScrollSpy.OnScroll` | script.js:114-142 | After one scroll event, a link is active exactly when its `href` is `"#"` followed by the id of the last covering section. |
| `ScrollSpy.ActiveIdIsLastCoveringId` | script.js:127-135 | If some section covers the offset, the current id is that of a covering section with no covering section after it. Otherwise it is empty. |
| `ScrollSpy.NoCoverTargetsBareHash` | script.js:137-142 | When no section covers the offset, the links marked active are those whose `href` is exactly `"#"`. |
| `ScrollSpy.LaterSectionWins` | script.js:128-134 | A covering section placed after all others is the current one, whatever comes before it. |

## Left out

- Presentation: every style assignment, the hover effects, the opacity fade-in timer and the overlay markup strings. `open` stands for the overlay not fading out.
- The preloader, the notification auto-dismiss and close timers, `throttle`, and the simulated 2-second submission delay. Timers are not modelled as time; the lightbox removal timer is the explicit `FinishRemoval` step.
- Smooth scrolling (`window.scrollTo`), the mobile menu class toggling and the header background effect: browser calls with no decision beyond a threshold on presentation.
- `IntersectionObserver`, the animate-on-scroll library, the scroll-reveal handler and the `load` handler: foreign library and browser callbacks.
- Layout values: `pageYOffset`, `offsetTop` and `offsetHeight` are whole numbers supplied as inputs. Fractional offsets are not modelled.
- Several lightboxes at once: each `openLightbox` call is a separate `Session`. Nothing guards against a second open, and a key handler left registered by a close-button close keeps acting on its own session. The model does not combine several sessions under one document.
- Lightbox.Session.CloseViaButton, Lightbox.Session.CloseViaBackdrop: they require the overlay to be attached, because a detached element receives no clicks. The prev/next button clicks are modelled by `ShowPrev`/`ShowNext` without the rule that a hidden button cannot be clicked.
- `Email.IsWs` lists the code points of ECMAScript's `\s` for the current Unicode space separators. JavaScript strings are UTF-16 and the model's characters are Unicode scalar values, so surrogate pairs are not modelled.
- The notification colours and the notification element itself. `ContactForm.NotificationText` and `ContactForm.NotificationType` give only the message and its type.
- Nothing maps a gallery item back to its index: each click handler captures its index directly (script.js:273-275), which `Lightbox.ClickGalleryItem` models.
