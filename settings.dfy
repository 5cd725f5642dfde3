/** Small rules of the editor's settings: which saved theme is applied
    (`loadTheme`), how stored metadata is read back (`loadMetadata`, written by
    `saveMetadata`), and the split between the editor and preview panes while
    the divider is dragged (`onDrag`). */
module Settings {
  import opened Wrappers
  import opened Metadata
  import opened Numeric

  /** The themes the page offers. */
  const Themes: seq<string> := ["minimalist", "cyberpunk", "swiss"]

  /** `loadTheme`: the saved theme to switch to, if there is one and it is
      one of the offered themes; otherwise the current theme stays. */
  function LoadTheme(saved: Option<string>): Option<string> {
    if saved.Some? && saved.value != "" && saved.value in Themes then Some(saved.value) else None
  }

  /** A theme is applied exactly when the stored name is an offered one. */
  lemma {:induction false} LoadThemeIff(saved: Option<string>, theme: string)
    ensures LoadTheme(saved) == Some(theme) <==> saved == Some(theme) && theme in Themes
    ensures LoadTheme(saved).Some? ==> LoadTheme(saved).value in Themes
  {
    if saved == Some(theme) && theme in Themes {
      assert theme != "";
    }
  }

  /** A stored JSON value, as far as reading the flags back distinguishes
      them (`undefined` for a missing key). */
  datatype Json = Missing | JNull | JBool(b: bool) | JNumber(n: real) | JString(s: string) | JObject

  /** `data.includeX !== false`: only a stored `false` clears a check box. */
  function DecodeFlag(v: Json): (flag: bool) {
    v != JBool(false)
  }

  /** A flag reads back as stored; anything that is not a boolean, a missing
      key included, reads as checked. */
  lemma {:induction false} DecodeFlagDefaults(v: Json)
    ensures v.JBool? ==> DecodeFlag(v) == v.b
    ensures !v.JBool? ==> DecodeFlag(v)
    ensures !DecodeFlag(v) <==> v == JBool(false)
  {
  }

  /** `data.title || ''`: a missing or empty stored text reads as empty. */
  function DecodeText(v: Option<string>): string {
    if v.Some? then v.value else ""
  }

  /** What the metadata slot of local storage holds. */
  datatype Stored =
    | NothingSaved
    | Unparseable
    | Saved(title: Option<string>, author: Option<string>, date: Option<string>,
            includeTitle: Json, includeAuthor: Json, includeDate: Json)

  /** `saveMetadata`: every input and check box, as JSON. */
  function SaveMetadata(m: Metadata): Stored {
    Saved(Some(m.title), Some(m.author), Some(m.date),
          JBool(m.includeTitle), JBool(m.includeAuthor), JBool(m.includeDate))
  }

  /** `loadMetadata`: the inputs after reading the slot back. With nothing
      saved only the date changes, to `today` (the clock is a parameter); an
      unreadable slot changes nothing. */
  function LoadMetadata(stored: Stored, current: Metadata, today: string): Metadata {
    match stored
    case NothingSaved => current.(date := today)
    case Unparseable => current
    case Saved(t, a, d, it, ia, id) =>
      Metadata(DecodeText(t), DecodeText(a), DecodeText(d), DecodeFlag(it), DecodeFlag(ia), DecodeFlag(id))
  }

  /** Saving and loading gives back every input and check box. */
  lemma {:induction false} SaveLoadRoundTrip(m: Metadata, current: Metadata, today: string)
    ensures LoadMetadata(SaveMetadata(m), current, today) == m
  {
  }

  /** A slot written before a flag existed shows that check box checked. */
  lemma {:induction false} MissingFlagsChecked(t: Option<string>, a: Option<string>, d: Option<string>, current: Metadata, today: string)
    ensures var m := LoadMetadata(Saved(t, a, d, Missing, Missing, Missing), current, today);
      m.includeTitle && m.includeAuthor && m.includeDate
  {
  }

  // The pane resizer.

  const MinPercent: real := 25.0
  const MaxPercent: real := 75.0

  /** `Math.max(25, Math.min(75, p))`. */
  function Clamp(p: real): real {
    Max(MinPercent, Min(MaxPercent, p))
  }

  /** The widths of the editor and preview panes, in percent. */
  datatype Split = Split(editor: real, preview: real)

  /** `onDrag`: nothing while the divider is not held; otherwise the
      cursor's position across the container, in percent, clamped, and the
      rest for the preview. In a container of width 0 the division gives
      +Infinity or -Infinity, which the clamp turns into 75 or 25; exactly at
      the left edge it gives NaN, and the browser rejects the style
      `0 0 NaN%`, so the panes stay as they are. */
  function OnDrag(isDragging: bool, clientX: real, left: real, width: real): Option<Split>
  {
    if !isDragging then None
    else if width == 0.0 then
      if clientX > left then Some(Split(MaxPercent, 100.0 - MaxPercent))
      else if clientX < left then Some(Split(MinPercent, 100.0 - MinPercent))
      else None
    else
      var percentage := Clamp((clientX - left) / width * 100.0);
      Some(Split(percentage, 100.0 - percentage))
  }

  /** While dragging, the editor pane stays between 25 % and 75 % and the
      panes together fill the container; the panes change unless the divider
      is not held or the cursor is at the left edge of an empty container. */
  lemma {:induction false} OnDragBounds(isDragging: bool, clientX: real, left: real, width: real)
    ensures OnDrag(isDragging, clientX, left, width).Some? <==>
      isDragging && (width != 0.0 || clientX != left)
    ensures OnDrag(isDragging, clientX, left, width).Some? ==>
      var s := OnDrag(isDragging, clientX, left, width).value;
      && MinPercent <= s.editor <= MaxPercent
      && MinPercent <= s.preview <= MaxPercent
      && s.editor + s.preview == 100.0
  {
  }

  /** Inside the allowed range the editor pane follows the cursor exactly. */
  lemma {:induction false} OnDragFollowsCursor(clientX: real, left: real, width: real)
    requires width != 0.0
    requires MinPercent <= (clientX - left) / width * 100.0 <= MaxPercent
    ensures OnDrag(true, clientX, left, width).value.editor == (clientX - left) / width * 100.0
  {
  }

  /** In an empty container the editor pane jumps to a bound: 75 % right of
      the left edge, 25 % left of it. */
  lemma {:induction false} OnDragZeroWidth(clientX: real, left: real)
    requires clientX != left
    ensures OnDrag(true, clientX, left, 0.0) ==
      Some(if clientX > left then Split(MaxPercent, MinPercent) else Split(MinPercent, MaxPercent))
  {
  }

  /** Moving the cursor right never shrinks the editor pane. */
  lemma {:induction false} OnDragMonotone(x1: real, x2: real, left: real, width: real)
    requires width > 0.0 && x1 <= x2
    ensures OnDrag(true, x1, left, width).value.editor <= OnDrag(true, x2, left, width).value.editor
  {
    var p1 := (x1 - left) / width * 100.0;
    var p2 := (x2 - left) / width * 100.0;
    assert (x1 - left) / width <= (x2 - left) / width;
    assert p1 <= p2;
  }

  /** Clamping twice is clamping once. */
  lemma {:induction false} ClampIdempotent(p: real)
    ensures Clamp(Clamp(p)) == Clamp(p)
  {
  }
}
