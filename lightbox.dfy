/** The lightbox opened by `openLightbox`: a current position into the
    gallery index, the view `updateImage` renders, and the overlay's
    lifecycle (fade-out, delayed removal, the document key handler). */
module Lightbox {
  import opened Wrappers
  import opened Gallery

  // ---------------------------------------------------------------------
  // Navigation and rendering, as functions of the position

  /** Position after `showNextImage`: one step forward unless already at the
      last image; never wraps around. */
  function NextIndex(i: int, len: int): (r: int)
    requires 0 <= i < len
    ensures 0 <= r < len
    ensures r == i + 1 <==> i < len - 1
    ensures r != i + 1 ==> r == i
  {
    if i < len - 1 then i + 1 else i
  }

  /** Position after `showPrevImage`: one step back unless already at the
      first image; never wraps around. */
  function PrevIndex(i: int, len: int): (r: int)
    requires 0 <= i < len
    ensures 0 <= r < len
    ensures r == i - 1 <==> i > 0
    ensures r != i - 1 ==> r == i
  {
    if i > 0 then i - 1 else i
  }

  /** A successful move is undone by the opposite move. */
  lemma MovesUndo(i: int, len: int)
    requires 0 <= i < len
    ensures i < len - 1 ==> PrevIndex(NextIndex(i, len), len) == i
    ensures i > 0 ==> NextIndex(PrevIndex(i, len), len) == i
  {
  }

  /** Position after `n` successive next-moves. */
  function NextTimes(n: nat, i: int, len: int): int
    requires 0 <= i < len
  {
    if n == 0 then i else NextTimes(n - 1, NextIndex(i, len), len)
  }

  /** Position after `n` successive previous-moves. */
  function PrevTimes(n: nat, i: int, len: int): int
    requires 0 <= i < len
  {
    if n == 0 then i else PrevTimes(n - 1, PrevIndex(i, len), len)
  }

  /** Repeated next-moves walk forward one image at a time and then stay on
      the last image. */
  lemma {:induction false} NextTimesStopsAtLast(n: nat, i: int, len: int)
    requires 0 <= i < len
    ensures NextTimes(n, i, len) == if i + n < len - 1 then i + n else len - 1
  {
    if n > 0 {
      NextTimesStopsAtLast(n - 1, NextIndex(i, len), len);
    }
  }

  /** Repeated previous-moves walk back one image at a time and then stay on
      the first image. */
  lemma {:induction false} PrevTimesStopsAtFirst(n: nat, i: int, len: int)
    requires 0 <= i < len
    ensures PrevTimes(n, i, len) == if i - n > 0 then i - n else 0
  {
    if n > 0 {
      PrevTimesStopsAtFirst(n - 1, PrevIndex(i, len), len);
    }
  }

  /** What the overlay shows: the image element's src/alt and whether the
      previous and next buttons are displayed ("flex") or hidden ("none"). */
  datatype View = View(image: ImageRef, prevVisible: bool, nextVisible: bool)

  /** The view `updateImage` writes for a position. */
  function Render(images: seq<ImageRef>, i: int): (v: View)
    requires 0 <= i < |images|
    ensures v.image == images[i]
    ensures !v.prevVisible <==> i == 0
    ensures !v.nextVisible <==> i == |images| - 1
  {
    View(images[i], i != 0, i != |images| - 1)
  }

  /** Both navigation buttons are hidden exactly when the gallery holds a
      single image; at any other size at least one of them is shown. */
  lemma BothHiddenIffSingle(images: seq<ImageRef>, i: int)
    requires 0 <= i < |images|
    ensures (!Render(images, i).prevVisible && !Render(images, i).nextVisible) <==> |images| == 1
  {
  }

  /** What `handleKeydown` does with a key name. */
  datatype KeyAction = CloseKey | PrevKey | NextKey | NoAction

  function KeyActionOf(key: string): (a: KeyAction)
    ensures a == CloseKey <==> key == "Escape"
    ensures a == PrevKey <==> key == "ArrowLeft"
    ensures a == NextKey <==> key == "ArrowRight"
    ensures a == NoAction <==> key !in {"Escape", "ArrowLeft", "ArrowRight"}
  {
    if key == "Escape" then CloseKey
    else if key == "ArrowLeft" then PrevKey
    else if key == "ArrowRight" then NextKey
    else NoAction
  }

  // ---------------------------------------------------------------------
  // The session: the state captured by one call of `openLightbox`

  class Session {
    /** The gallery index the session pages through; never changed. */
    const images: seq<ImageRef>
    /** `currentImageIndex`. */
    var idx: int
    /** What the overlay's image element and buttons currently show. */
    var shown: ImageRef
    var prevVisible: bool
    var nextVisible: bool
    /** No close has been requested yet (the overlay is not fading out). */
    var open: bool
    /** The overlay is still a child of the document body. */
    var attached: bool
    /** `handleKeydown` is registered as a document keydown listener. */
    var keyHandlerRegistered: bool
    /** Removal timers (300 ms after a close) scheduled and not yet run. */
    var pendingRemovals: nat

    function CurrentView(): View
      reads this
    {
      View(shown, prevVisible, nextVisible)
    }

    /** The position stays in range, the view always matches it, and an
        overlay that is fading out always has a removal still to come. */
    ghost predicate Valid()
      reads this
    {
      && 0 <= idx < |images|
      && CurrentView() == Render(images, idx)
      && (open ==> attached && pendingRemovals == 0)
      && (!open && attached ==> pendingRemovals > 0)
    }

    /** `openLightbox(start, images)`: the overlay is attached showing
        `images[start]`, and the key handler is registered. */
    constructor Open(images: seq<ImageRef>, start: int)
      requires 0 <= start < |images|
      ensures Valid()
      ensures this.images == images && idx == start
      ensures CurrentView() == Render(images, start)
      ensures open && attached && keyHandlerRegistered && pendingRemovals == 0
    {
      this.images := images;
      idx := start;
      shown := images[start];
      prevVisible := start != 0;
      nextVisible := start != |images| - 1;
      open := true;
      attached := true;
      keyHandlerRegistered := true;
      pendingRemovals := 0;
    }

    /** `updateImage`: re-render the image and the button visibility from
        the current position. */
    method UpdateImage()
      requires 0 <= idx < |images|
      modifies this
      ensures idx == old(idx)
      ensures CurrentView() == Render(images, idx)
      ensures open == old(open) && attached == old(attached)
      ensures keyHandlerRegistered == old(keyHandlerRegistered)
      ensures pendingRemovals == old(pendingRemovals)
    {
      shown := images[idx];
      prevVisible := idx != 0;
      nextVisible := idx != |images| - 1;
    }

    /** `showPrevImage`, run by the previous button and by ArrowLeft. */
    method ShowPrev()
      requires Valid()
      modifies this
      ensures Valid()
      ensures idx == PrevIndex(old(idx), |images|)
      ensures open == old(open) && attached == old(attached)
      ensures keyHandlerRegistered == old(keyHandlerRegistered)
      ensures pendingRemovals == old(pendingRemovals)
    {
      if idx > 0 {
        idx := idx - 1;
        UpdateImage();
      }
    }

    /** `showNextImage`, run by the next button and by ArrowRight. */
    method ShowNext()
      requires Valid()
      modifies this
      ensures Valid()
      ensures idx == NextIndex(old(idx), |images|)
      ensures open == old(open) && attached == old(attached)
      ensures keyHandlerRegistered == old(keyHandlerRegistered)
      ensures pendingRemovals == old(pendingRemovals)
    {
      if idx < |images| - 1 {
        idx := idx + 1;
        UpdateImage();
      }
    }

    /** The original `closeLightbox`: start the fade-out and schedule a
        removal. It does not touch the key handler. */
    method Close()
      requires Valid()
      modifies this
      ensures Valid()
      ensures !open && pendingRemovals == old(pendingRemovals) + 1
      ensures idx == old(idx) && CurrentView() == old(CurrentView())
      ensures attached == old(attached)
      ensures keyHandlerRegistered == old(keyHandlerRegistered)
    {
      open := false;
      pendingRemovals := pendingRemovals + 1;
    }

    /** The wrapper that replaces `closeLightbox` once the key handler is
        registered: unregister the handler, then close. */
    method CloseAndUnregister()
      requires Valid()
      modifies this
      ensures Valid()
      ensures !open && !keyHandlerRegistered
      ensures pendingRemovals == old(pendingRemovals) + 1
      ensures idx == old(idx) && CurrentView() == old(CurrentView())
      ensures attached == old(attached)
    {
      keyHandlerRegistered := false;
      Close();
    }

    /** A click on the close button, which was bound to the original
        `closeLightbox` before the wrapper existed: the key handler stays
        registered. */
    method CloseViaButton()
      requires Valid() && attached
      modifies this
      ensures Valid()
      ensures !open && pendingRemovals == old(pendingRemovals) + 1
      ensures keyHandlerRegistered == old(keyHandlerRegistered)
      ensures idx == old(idx) && CurrentView() == old(CurrentView())
      ensures attached == old(attached)
    {
      Close();
    }

    /** A click that reaches the overlay's own listener. Only a click whose
        target is the overlay itself (the backdrop, not the content or a
        button) closes it, through the wrapper. */
    method CloseViaBackdrop(targetIsOverlay: bool)
      requires Valid() && attached
      modifies this
      ensures Valid()
      ensures targetIsOverlay ==> !open && !keyHandlerRegistered
                                  && pendingRemovals == old(pendingRemovals) + 1
      ensures !targetIsOverlay ==> open == old(open) && pendingRemovals == old(pendingRemovals)
                                   && keyHandlerRegistered == old(keyHandlerRegistered)
      ensures idx == old(idx) && CurrentView() == old(CurrentView())
      ensures attached == old(attached)
    {
      if targetIsOverlay {
        CloseAndUnregister();
      }
    }

    /** A keydown event delivered to the document. Without a registered
        handler nothing happens; otherwise `handleKeydown` dispatches on the
        key name, Escape closing through the wrapper. */
    method HandleKey(key: string)
      requires Valid()
      modifies this
      ensures Valid()
      ensures !old(keyHandlerRegistered) || KeyActionOf(key) == NoAction ==>
                idx == old(idx) && open == old(open)
                && keyHandlerRegistered == old(keyHandlerRegistered)
                && pendingRemovals == old(pendingRemovals)
      ensures old(keyHandlerRegistered) && KeyActionOf(key) == CloseKey ==>
                !open && !keyHandlerRegistered && idx == old(idx)
                && pendingRemovals == old(pendingRemovals) + 1
      ensures old(keyHandlerRegistered) && KeyActionOf(key) == PrevKey ==>
                idx == PrevIndex(old(idx), |images|) && open == old(open)
                && keyHandlerRegistered && pendingRemovals == old(pendingRemovals)
      ensures old(keyHandlerRegistered) && KeyActionOf(key) == NextKey ==>
                idx == NextIndex(old(idx), |images|) && open == old(open)
                && keyHandlerRegistered && pendingRemovals == old(pendingRemovals)
      ensures attached == old(attached)
    {
      if keyHandlerRegistered {
        if key == "Escape" {
          CloseAndUnregister();
        } else if key == "ArrowLeft" {
          ShowPrev();
        } else if key == "ArrowRight" {
          ShowNext();
        }
      }
    }

    /** One removal timer fires: the overlay is removed if it is still
        attached, and nothing happens otherwise. */
    method FinishRemoval()
      requires Valid() && pendingRemovals > 0
      modifies this
      ensures Valid()
      ensures !attached && pendingRemovals == old(pendingRemovals) - 1
      ensures open == old(open) && idx == old(idx) && CurrentView() == old(CurrentView())
      ensures keyHandlerRegistered == old(keyHandlerRegistered)
    {
      pendingRemovals := pendingRemovals - 1;
      if attached {
        attached := false;
      }
    }
  }

  // ---------------------------------------------------------------------
  // Client scenarios: what a page user observes through the session

  /** A click on gallery item `i`, once `initGallery` has bound the click
      handlers, opens a session on the clicked item's image. */
  method ClickGalleryItem(items: seq<GalleryItem>, i: nat) returns (s: Session)
    requires BuildIndex(items).Some? && i < |items|
    ensures fresh(s) && s.Valid()
    ensures s.images == BuildIndex(items).value && s.idx == i
    ensures Some(s.shown) == items[i].img
    ensures s.open && s.attached && s.keyHandlerRegistered
  {
    ClickedItemIsValidStart(items, i);
    s := new Session.Open(BuildIndex(items).value, i);
  }

  /** Closing with the button leaves the key handler registered, so a later
      ArrowRight still moves the (faded-out) session forward. */
  method ButtonCloseKeepsArrowKeys(images: seq<ImageRef>, start: int)
    returns (registered: bool, before: int, after: int)
    requires 0 <= start < |images| - 1
    ensures registered
    ensures before == start && after == start + 1
  {
    var s := new Session.Open(images, start);
    s.CloseViaButton();
    before := s.idx;
    s.HandleKey("ArrowRight");
    registered, after := s.keyHandlerRegistered, s.idx;
  }

  /** Closing with Escape unregisters the key handler: a later ArrowRight
      has no effect. */
  method EscapeCloseReleasesKeys(images: seq<ImageRef>, start: int)
    returns (registered: bool, after: int)
    requires 0 <= start < |images|
    ensures !registered && after == start
  {
    var s := new Session.Open(images, start);
    s.HandleKey("Escape");
    s.HandleKey("ArrowRight");
    registered, after := s.keyHandlerRegistered, s.idx;
  }

  /** A backdrop click unregisters the key handler like Escape does; a
      click on the content inside the overlay closes nothing. */
  method BackdropCloseReleasesKeys(images: seq<ImageRef>, start: int)
    returns (openAfterContentClick: bool, registered: bool, after: int)
    requires 0 <= start < |images|
    ensures openAfterContentClick
    ensures !registered && after == start
  {
    var s := new Session.Open(images, start);
    s.CloseViaBackdrop(false);
    openAfterContentClick := s.open;
    s.CloseViaBackdrop(true);
    s.HandleKey("ArrowLeft");
    registered, after := s.keyHandlerRegistered, s.idx;
  }

  /** Closing twice schedules two removals; the first removes the overlay
      and the second finds it gone and does nothing. */
  method DoubleCloseIsHarmless(images: seq<ImageRef>, start: int)
    returns (attachedAfterFirst: bool, attachedAfterSecond: bool, shownAfter: ImageRef)
    requires 0 <= start < |images|
    ensures !attachedAfterFirst && !attachedAfterSecond
    ensures shownAfter == images[start]
  {
    var s := new Session.Open(images, start);
    s.CloseViaButton();
    s.HandleKey("Escape");
    s.FinishRemoval();
    attachedAfterFirst := s.attached;
    s.FinishRemoval();
    attachedAfterSecond := s.attached;
    shownAfter := s.shown;
  }

  /** Gallery [a, b, c], item b clicked: both buttons shown; ArrowRight
      shows c and hides next; a second ArrowRight changes nothing; Escape
      closes and unregisters the key handler. */
  method ThreeImageWalk(a: ImageRef, b: ImageRef, c: ImageRef)
    returns (atOpen: View, afterRight: View, afterSecondRight: View,
             openAtEnd: bool, registeredAtEnd: bool)
    ensures atOpen == View(b, true, true)
    ensures afterRight == View(c, true, false)
    ensures afterSecondRight == afterRight
    ensures !openAtEnd && !registeredAtEnd
  {
    var s := new Session.Open([a, b, c], 1);
    atOpen := s.CurrentView();
    s.HandleKey("ArrowRight");
    afterRight := s.CurrentView();
    s.HandleKey("ArrowRight");
    afterSecondRight := s.CurrentView();
    s.HandleKey("Escape");
    openAtEnd, registeredAtEnd := s.open, s.keyHandlerRegistered;
  }
}
