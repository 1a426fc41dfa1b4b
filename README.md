# Colour picker — a Dafny model

This project models the logic of a browser colour picker with two modes.

- **Screen picker** (main.js). The user presses *Pick* and shares the screen. While picking, moving the mouse over the overlay shows a magnifier: a small crop of the captured frame around the cursor, plus the colour of the pixel under the cursor. A click takes that pixel's colour, shows it as `#RRGGBB` and ends the session. Escape also ends it.
- **Image picker** (script.js). A local image is drawn scaled to fit a box. Moving the mouse over it shows the colour of the pixel beneath as `#rrggbb`.

The model covers these parts:

- the two hex encoders, each proved against a `#RRGGBB` reader in both directions (every colour reads back, and every canonical string of the encoder's letter case is the encoding of what it reads as) and against each other;
- the rounding and clamping of the sample coordinate;
- the magnifier's crop rectangle;
- the session state (`isPicking`, `stream`, the pick button) as a class whose methods are the event handlers;
- the image picker's fit-to-box scaling and its in-bounds guard before the pixel read.

Files and modules:

| file | module | contents |
|---|---|---|
| wrappers.dfy | `Wrappers` | `Option`, standing for JavaScript's `null`-or-value results |
| hex_text.dfy | `HexText` | `Byte`, `Rgb`, hex digits, `toString(16)` as `ToHexString`, ASCII case mapping, the `#RRGGBB` reader `ParseHexColor` |
| canvas.dfy | `Canvas` | `Point` and `PixelRead`, the one-pixel `getImageData` read as a parameter |
| screen_color.dfy | `ScreenColor` | main.js `rgbToHex` |
| screen_sampling.dfy | `ScreenSampling` | `Math.round`, the clamp, `getColorAtPosition`, the magnifier crop in `updateMagnifier` |
| picking_session.dfy | `PickingSession` | class `Picker`: `stopPicking`, `startPicking` and the click, key and pick-button handlers |
| image_picker.dfy | `ImagePicker` | script.js: fit-to-box, in-bounds guard, lower-case encoder, the mouse-move readout |

Modelling choices:

- Numbers are exact: `real` for canvas coordinates and scale factors, `int`/`nat` for pixel indices. `Math.round(x)` is `Floor(x + 0.5)`.
- The browser's capture request is a parameter: `CaptureOutcome` is `Denied`, or `Granted` with a stream and whether it has a video track. `startPicking` suspends at its `await`. `PressPick` therefore only counts a pending request, and `CaptureSettled` runs the rest of the function.
- Which streams the browser is still capturing is ghost state (`capturing`). This makes visible a stream that the page forgets to stop.
- The canvas's initial size comes from the page markup, which is not part of this model. The constructor takes it as parameters.
- The sample coordinate is rounded and then clamped, in the order main.js:152-153 uses. Clamping first and rounding afterwards would pick the same pixel, because the bounds are integers.
- The pick button is disabled only once a capture has been granted (main.js:230), not while the request is pending. The model keeps that window: `PressPick` can issue a second request before the first settles (see `DoublePressLeaksCapture`).

## Model

| member | source | states |
|---|---|---|
| `HexText.ToHexString` | main.js:34 | `x.toString(16)` has at least one character, and exactly one iff x < 16 |
| `HexText.ToHexStringDenotes` | main.js:34 | `x.toString(16)` consists of lower-case hex digits, never starts with '0' unless x = 0, and denotes x (proved by induction on x) |
| `HexText.TwoDigits` | main.js:34-35 | the reference encoding of a byte: two lower-case hex digits that read back as the byte |
| `HexText.LowerDigit` | main.js:34 | the digit for d < 16 is a lower-case hex digit and reads back as d |
| `HexText.UpperDigit` | main.js:36 | the upper-case digit for d < 16 is in 0-9A-F and reads back as d |
| `HexText.ToUpper` | main.js:36 | `toUpperCase` keeps the length and maps each character on its own (ASCII letters to upper case); `ScreenColor.UpperTwoDigits` and `ScreenColor.RgbToHexDigits` use it to turn the lower-case numerals into upper-case ones |
| `HexText.TwoDigitsOfParse` | script.js:37-40 | a pair of hex digits with no upper-case letter is the two-digit lower-case numeral of the byte it reads as |
| `ScreenColor.PadChannel` | main.js:33-35 | the `map` callback's result has at least two characters, starts with the padding '0' exactly when x < 16, and ends with x's lowest hex digit; for a byte it is the two-digit numeral (`PadChannelIsTwoDigits`) |
| `ScreenColor.RgbToHex` | main.js:32-37 | the result has 7 characters and starts with '#'; its digits, padding and case are stated by `RgbToHexDigits`, `RgbToHexShape` and `RgbToHexPadding`, and `RgbToHexRoundTrip` / `ParseThenRgbToHex` make it the inverse of the reader |
| `ScreenColor.UpperPair` | main.js:36 | the upper-case two-digit numeral of a byte is two digits from 0-9A-F that read back as the byte |
| `ScreenColor.PadChannelIsTwoDigits` | main.js:33-35 | for a byte, the padded `toString(16)` is exactly the two-digit numeral, and its first character is '0' iff the byte is below 16 |
| `ScreenColor.RgbToHexDigits` | main.js:32-37 | `rgbToHex(r,g,b)` is '#' followed by the upper-case two-digit numerals of r, g and b |
| `ScreenColor.RgbToHexShape` | main.js:32-37 | the result has 7 characters, the first is '#', the other six are in 0-9A-F, and none is a lower-case letter |
| `ScreenColor.RgbToHexPadding` | main.js:34-35 | each channel's first digit is '0' exactly when that channel is below 16 |
| `ScreenColor.RgbToHexRoundTrip` | main.js:32-37 | reading `rgbToHex(r,g,b)` back as `#RRGGBB` yields (r,g,b) |
| `ScreenColor.ParseThenRgbToHex` | main.js:32-37 | conversely, every readable `#RRGGBB` string without lower-case letters is the `rgbToHex` of the colour it reads as |
| `ScreenSampling.Round` | main.js:133 | `Math.round(x)` is the integer n with n - 0.5 <= x < n + 0.5 (halves round up) |
| `ScreenSampling.ClampToAxis` | main.js:152-153 | the clamp lands in [0, size-1] when size >= 1. An index already inside is unchanged. Below 0 gives 0; at or past the size gives size-1 |
| `ScreenSampling.ClampIsNearest` | main.js:152-153 | the clamped index is the pixel of the axis nearest to the rounded coordinate |
| `ScreenSampling.SamplePoint` | main.js:149-153 | no pixel iff width or height is 0. Otherwise the pixel is inside the canvas and equals the rounded coordinate whenever that is inside |
| `ScreenSampling.GetColorAtPosition` | main.js:148-164 | null on an empty canvas. On a canvas with pixels the result is exactly the read at the sample pixel (null only when that read fails), and that pixel is inside the canvas |
| `ScreenSampling.CropSpan` | main.js:112-119 | for a canvas of size >= 1, the crop origin lies in [0, size-1], its length in (0, 2*sourceSize] = (0, 20], and it ends inside the canvas |
| `ScreenSampling.CropSpanCentered` | main.js:112-119 | at least sourceSize away from both edges, the crop is the full 20-pixel span centred on the cursor |
| `ScreenSampling.SampleInsideCropSpan` | main.js:116-134 | the pixel whose colour the magnifier reports lies inside the crop it draws |
| `ScreenSampling.UpdateMagnifier` | main.js:109-134 | a view exists iff there is a stream and the canvas has pixels. Its crop is the `CropSpan` of each axis (so, by `CropSpanCentered`, the 20-pixel square centred on the cursor away from the edges); it lies inside the canvas and is at most 20x20. Its pixel is the `getColorAtPosition` sample and lies inside the crop |
| `PickingSession.Picker.constructor` | main.js:28-29 | the page starts idle: not picking, no stream, button enabled, no colour shown |
| `PickingSession.Picker.StopPicking` | main.js:167-182 | a no-op when not picking. Otherwise it leaves picking, stops the held stream, drops it and clears the video source. The button's `disabled` flag is untouched |
| `PickingSession.Picker.PressPick` | main.js:288-292 | a press starts a capture request only when the button is enabled and no session runs; nothing else changes |
| `PickingSession.Picker.CaptureSettled` | main.js:185-237 | see the cases below this table |
| `PickingSession.Picker.LoadedMetadata` | main.js:203-206 | the canvas takes the captured video's size |
| `PickingSession.Picker.MouseMove` | main.js:240-258 | the result is `UpdateMagnifier` on the current stream and canvas while picking, and nothing when idle; so a view exists iff picking on a canvas with pixels, with the crop and sample stated there. No state changes |
| `PickingSession.Picker.Click` | main.js:261-277 | when picking and the sample read succeeds: the colour's `rgbToHex` is shown, picking stops, the stream is stopped and dropped, and the button is enabled; pending requests, listeners and the canvas size are unchanged. Otherwise nothing changes |
| `PickingSession.Picker.KeyDown` | main.js:280-285 | Escape while picking leaves isPicking false, the stream stopped and dropped, and the button enabled; the shown colour, pending requests, listeners and canvas size are unchanged. Any other key, or any key when idle, changes nothing |
| `PickingSession.Picker.ShareEnded` | main.js:197 | the browser stops capturing s. If s carries the listener and a session runs, `stopPicking` ends it and drops and stops the stream; otherwise picking and `stream` are unchanged. Either way the button keeps its `disabled` flag, and the shown colour, listeners, pending requests and canvas size are unchanged |
| `PickingSession.Picker.ShareEndedFixed` | main.js:197 | the corrected handler: the same new state as `ShareEnded`, except that when s carries the listener the button is enabled afterwards |
| `PickingSession.EndedSharingLocksButton` | main.js:197 | start a session, then end sharing from the browser: the page is idle with the button disabled, and a press starts nothing |
| `PickingSession.EndedSharingFixedRestarts` | main.js:197 | the same steps with the corrected handler: a press afterwards starts a new capture request |
| `PickingSession.FailedStartKeepsReference` | main.js:185-237 | a start that throws after storing the stream (a stream without tracks) leaves the page idle with the button enabled, but `stream` still set; the stream has no track, so nothing is captured |
| `PickingSession.DoublePressLeaksCapture` | main.js:288-292 | two presses before the first request settles issue two capture requests. The second stream overwrites the first in `stream`, so after Escape the first is still captured and nothing holds it |
| `ImagePicker.FitToBox` | script.js:13-17 | scaling by min(maxWidth/w, maxHeight/h) keeps the image within maxWidth x maxHeight and touches the box on at least one axis. It keeps the aspect ratio (width*h = height*w), and the size is non-negative for a non-negative box |
| `ImagePicker.FitToBoxIsLargest` | script.js:15 | no larger scale factor keeps the image inside the box |
| `ImagePicker.PixelUnderCursor` | script.js:29-32 | a pixel is read iff 0 <= x < canvas.width and 0 <= y < canvas.height. That pixel is inside the canvas and contains (x, y) |
| `ImagePicker.SliceLast2` | script.js:38-40 | `slice(-2)` yields the last two characters (all of a shorter string), and the string is what precedes them followed by them |
| `ImagePicker.ScriptChannel` | script.js:38-40 | `('0' + v.toString(16)).slice(-2)` has two characters, the second being v's lowest hex digit, and the first '0' when v < 16 |
| `ImagePicker.ScriptChannelTwoDigits` | script.js:38-40 | `('0' + v.toString(16)).slice(-2)` is the two-digit lower-case numeral of v mod 256, for every v >= 0 |
| `ImagePicker.ColorValue` | script.js:37-40 | `colorValue` has 7 characters and starts with '#'; its digits are stated by `ColorValueDigits` and `ColorValueShape`, and `ColorValueRoundTrip` / `ParseThenColorValue` make it the inverse of the reader |
| `ImagePicker.ColorValueDigits` | script.js:37-40 | the colour value is '#' followed by the two-digit numerals of r, g and b |
| `ImagePicker.ColorValueShape` | script.js:37-40 | the colour value is '#' followed by exactly six characters from 0-9a-f |
| `ImagePicker.ColorValueRoundTrip` | script.js:37-40 | reading the colour value back yields (r,g,b) |
| `ImagePicker.ParseThenColorValue` | script.js:37-40 | conversely, every readable `#rrggbb` string without upper-case letters is the colour value of the colour it reads as |
| `ImagePicker.ColorValueIsLowerRgbToHex` | script.js:37-40 | upper-casing script.js's value gives main.js's `rgbToHex`, and lower-casing `rgbToHex` gives script.js's value |
| `ImagePicker.HoverColorValue` | script.js:24-44 | a value is shown exactly when the cursor is inside the canvas and the read of the pixel under it succeeds. That value is the lower-case colour value of the pixel read: 7 characters starting with '#', reading back as that colour |

`CaptureSettled` keeps the session invariant. It always removes one pending request. Its outcomes are:

- **Denied:** it runs `stopPicking`. The button and the listener registry are unchanged.
- **Granted with a video track:** it starts the session. The stream is held, captured and shown, and the button is disabled.
- **Granted without a video track:** the stream is stored and then the `catch` runs `stopPicking`. Audio is not requested, so such a stream has no track and is not counted as captured.
  - If no session was running, the reference stays set; the stream has no track, so nothing is captured.
  - If a session was running, that session ends.
  - Either way the button and the listener registry are unchanged.

A granted stream must be new: not captured and not listened to already.

## Left out

- `rgbToHsl` (main.js:40-67) and the HSL text. It is floating-point division followed by `Math.round`, and at .5 boundaries IEEE results differ from exact reals.
- `updateColorDisplay` and `adjustColorPreviewHeight`, apart from the hex code they show. These are DOM text, styles and layout. So are the magnifier's position and the colour shown inside the magnifier.
- The screen-capture request itself (`getDisplayMedia` and its options), the `alert` on failure and `console` logging. The request's result is the `CaptureOutcome` parameter.
- The `requestAnimationFrame` redraw loop and every `drawImage`: frames drawn into the canvas, the magnified tile, the image in script.js.
- `getImageData` is the `PixelRead` parameter. A read that throws is `None`.
- The conversion from window to canvas coordinates (`clientX * canvas.width / innerWidth`, main.js:250-254 and 265-269, and `clientX - rect.left` in script.js). The model takes the resulting canvas coordinate as its input.
- The copy button: the clipboard write, its promise and the `setTimeout` (main.js:295-314).
- FileReader and image decoding in script.js (lines 1-8 and 46-49). The image's size is an input.
- The truncation when a real width or height is assigned to `canvas.width`/`canvas.height` (script.js:19-20). The model's canvas size is a `nat`.
- `ImagePicker.FitToBox`: requires a positive image size. For a zero-size image JavaScript produces Infinity or NaN, which has no counterpart among reals.
- `ScreenColor.RgbToHex`: defined on bytes only. The source passes pixel data, which is always 0-255, and negative or fractional channels are not modelled.
- `HexText.ToUpper` / `HexText.ToLower`: map only ASCII letters. JavaScript's case mapping is Unicode-wide, but it is applied here only to hex digits.
- `ImagePicker.PixelUnderCursor`: the coordinate passed to `getImageData` is truncated by the WebIDL integer conversion. The model uses `Floor`, which agrees because the guard admits only non-negative coordinates.
- Concurrency between handlers is reduced to one event at a time. Each method is one handler run to completion, which matches the browser's single-threaded event loop.

## Findings

| source | as written | input that shows it | evidently intended | confidence | as-written member | corrected member |
|---|---|---|---|---|---|---|
| main.js:197 | the track's `ended` listener is `stopPicking` itself. That clears `isPicking` but never sets `pickBtn.disabled = false`, unlike the Escape and click handlers | press Pick, grant sharing, then end it with the browser's "stop sharing" control. The button stays disabled with the label "Pick", so no new session can be started without reloading | ending the session this way re-enables the button, as Escape (main.js:282-283) and a successful click (main.js:274-275) do | medium, not executed | `PickingSession.Picker.ShareEnded` (shown by `PickingSession.EndedSharingLocksButton`) | `PickingSession.Picker.ShareEndedFixed` (shown by `PickingSession.EndedSharingFixedRestarts`) |
