/** The virtual connector of the DRM driver (kernel/membrane_drv.c): the single mode it
    reports, derived from the device's width, height and refresh rate by fixed blanking
    offsets, its mode validation and detection callbacks, and the defaults and limits that
    device initialisation sets. */
module Connector {
  import opened Common

  // Defaults stored in the device by membrane_load.
  const DefaultWidth := 1920
  const DefaultHeight := 1080
  const DefaultRefresh := 60

  // Mode configuration limits set by membrane_load.
  const MinWidth := 0
  const MinHeight := 0
  const MaxWidth := 4096
  const MaxHeight := 4096

  /** The fields of `struct drm_display_mode` that get_modes fills; `preferred` and
      `driver` are the two bits of the mode's type. Fields hold C `int`s. */
  datatype DisplayMode = DisplayMode(
    hdisplay: int, hsyncStart: int, hsyncEnd: int, htotal: int,
    vdisplay: int, vsyncStart: int, vsyncEnd: int, vtotal: int,
    clock: int, driver: bool, preferred: bool)

  datatype ModeStatus = ModeOk | ModeBad | ModeClockRange | ModeNoMode
  datatype ConnectorStatus = Connected | Disconnected | Unknown

  /** The mode built by get_modes from the device's w, h and r: each sync edge and the
      total are offsets chained from the previous field, and the pixel clock in kHz is
      htotal * vtotal * r / 1000 in C integer division. */
  function ModeFor(w: int, h: int, r: int): DisplayMode
  {
    var hsyncStart := w + 60;
    var hsyncEnd := hsyncStart + 14;
    var htotal := hsyncEnd + 170;
    var vsyncStart := h + 32;
    var vsyncEnd := vsyncStart + 8;
    var vtotal := vsyncEnd + 184;
    DisplayMode(w, hsyncStart, hsyncEnd, htotal, h, vsyncStart, vsyncEnd, vtotal,
                CDiv(htotal * vtotal * r, 1000), true, true)
  }

  /** The horizontal and vertical timings are fixed offsets from the active size and
      strictly increasing; the clock is the truncated kHz value of the pixel rate. */
  lemma ModeTimings(w: int, h: int, r: int)
    ensures var m := ModeFor(w, h, r);
      && m.hdisplay == w && m.hsyncStart == w + 60 && m.hsyncEnd == w + 74 && m.htotal == w + 244
      && m.vdisplay == h && m.vsyncStart == h + 32 && m.vsyncEnd == h + 40 && m.vtotal == h + 224
      && m.hdisplay < m.hsyncStart < m.hsyncEnd < m.htotal
      && m.vdisplay < m.vsyncStart < m.vsyncEnd < m.vtotal
      && (m.htotal * m.vtotal * r >= 0 ==>
            m.clock * 1000 <= m.htotal * m.vtotal * r < m.clock * 1000 + 1000)
  {
  }

  /** A mode with a positive size and refresh rate has a positive pixel clock. */
  lemma ClockPositive(w: int, h: int, r: int)
    requires w >= 0 && h >= 0 && r > 0
    ensures ModeFor(w, h, r).clock > 0
  {
    var htotal, vtotal := w + 244, h + 224;
    assert htotal * vtotal >= 244 * 224 by {
      assert htotal * vtotal >= 244 * vtotal;
    }
    assert htotal * vtotal * r >= htotal * vtotal;
  }

  /** get_modes: when the mode can be allocated, exactly one driver-preferred mode, built
      from w, h and r, is added to the probed list and 1 is returned; otherwise nothing is
      added and 0 is returned. */
  function GetModes(createOk: bool, w: int, h: int, r: int): (res: (int, seq<DisplayMode>))
    ensures createOk ==>
      && res.0 == 1 && |res.1| == 1
      && res.1[0].preferred && res.1[0].driver
      && res.1[0].hdisplay == w && res.1[0].vdisplay == h
      && res.1[0] == ModeFor(w, h, r)
    ensures !createOk ==> res.0 == 0 && res.1 == []
    ensures res.0 == |res.1|
  {
    if !createOk then (0, []) else (1, [ModeFor(w, h, r)])
  }

  /** mode_valid accepts every mode. */
  function ModeValid(m: DisplayMode): (s: ModeStatus)
    ensures s == ModeOk
  {
    ModeOk
  }

  /** detect reports the connector connected, forced or not. */
  function Detect(force: bool): (s: ConnectorStatus)
    ensures s == Connected
  {
    Connected
  }

  /** The sizes the mode configuration admits. */
  predicate WithinModeConfig(w: int, h: int)
  {
    MinWidth <= w <= MaxWidth && MinHeight <= h <= MaxHeight
  }

  /** The default mode lies within the mode configuration, and its 2164 x 1304 total at
      60 Hz gives a pixel clock of 169311 kHz. */
  lemma DefaultModeWithinLimits()
    ensures WithinModeConfig(DefaultWidth, DefaultHeight)
    ensures ModeFor(DefaultWidth, DefaultHeight, DefaultRefresh).clock == 169311
  {
  }
}
