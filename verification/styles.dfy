/** The fixed style table `styles_config_by_template` (app.py:420-580): for
    each certificate template, where and how each field is drawn, and the
    page orientation; plus the A4 page sizes it selects between. */
module Styles {
  import opened Wrappers

  /** The four background templates, `fondo_1` .. `fondo_4`. */
  datatype Template = Fondo1 | Fondo2 | Fondo3 | Fondo4

  /** The texts drawn on a certificate. */
  datatype Field = Nombre | Curso | Fecha | Numero | Horas

  datatype Orientation = Portrait | Landscape

  /** One entry of the table: font family, size in points, colour, the
      anchor `x`, `y` in millimetres, the wrapping width in millimetres if
      any, and whether the entry asks for a bold face (a missing `bold` key
      reads as false). */
  datatype Style = Style(font: string, size: real, color: string, x: real, y: real,
                         maxWidth: Option<real>, bold: bool)

  const Trebuchet := "Trebuchet"
  const Black := "#000000"
  const Blue := "#004064"
  const White := "#ffffff"

  /** The style of `field` on `template`; `None` where the table has no
      entry (the hours field exists only on `fondo_1`). */
  function StyleOf(template: Template, field: Field): (s: Option<Style>)
    ensures s.Some? <==> field != Horas || template == Fondo1
    ensures s.Some? ==> (s.value.maxWidth.Some? <==> field == Nombre || field == Curso)
    ensures s.Some? ==> s.value.font == Trebuchet && s.value.size > 0.0
  {
    match (template, field)
    // fondo_1: progressive certificate, landscape
    case (Fondo1, Curso) => Some(Style(Trebuchet, 32.0, Black, 52.0, 129.0, Some(220.0), true))
    case (Fondo1, Nombre) => Some(Style(Trebuchet, 25.0, Black, 52.0, 85.0, Some(210.0), false))
    case (Fondo1, Fecha) => Some(Style(Trebuchet, 18.0, Blue, 52.0, 36.0, None, true))
    case (Fondo1, Numero) => Some(Style(Trebuchet, 15.5, Blue, 52.0, 27.0, None, false))
    case (Fondo1, Horas) => Some(Style(Trebuchet, 15.5, Blue, 132.5, 65.2, None, false))
    // fondo_2: participation certificate, portrait; its number entry is never drawn
    case (Fondo2, Curso) => Some(Style(Trebuchet, 30.5, Black, 105.0, 185.0, Some(160.0), true))
    case (Fondo2, Nombre) => Some(Style(Trebuchet, 29.0, Black, 105.0, 131.0, Some(160.0), true))
    case (Fondo2, Fecha) => Some(Style(Trebuchet, 18.0, Blue, 105.0, 78.0, None, false))
    case (Fondo2, Numero) => Some(Style(Trebuchet, 1.0, White, 0.0, 0.0, None, false))
    // fondo_3 and fondo_4: approval certificates, landscape, same layout
    case (_, Curso) => Some(Style(Trebuchet, 30.5, Black, 148.0, 117.0, Some(245.0), true))
    case (_, Nombre) => Some(Style(Trebuchet, 29.0, Black, 148.0, 75.0, Some(245.0), true))
    case (_, Fecha) => Some(Style(Trebuchet, 18.0, Blue, 20.0, 41.0, None, true))
    case (_, Numero) => Some(Style(Trebuchet, 15.5, Blue, 20.0, 32.0, None, false))
    case (_, Horas) => None
  }

  function OrientationOf(template: Template): Orientation {
    if template == Fondo2 then Portrait else Landscape
  }

  /** The anchors at which the layout centres a text horizontally. */
  predicate Centred(s: Style) {
    s.x == 148.0 || s.x == 105.0
  }

  /** A4 in points, 210 mm by 297 mm at 72 points per 25.4 mm. */
  const A4Width: real := 210.0 * 72.0 / 25.4
  const A4Height: real := 297.0 * 72.0 / 25.4

  /** `A4` for a portrait template, `landscape(A4)` otherwise, as (width,
      height). */
  function PageSize(template: Template): (size: (real, real))
    ensures (OrientationOf(template) == Landscape) <==> size.0 > size.1
    ensures {size.0, size.1} == {A4Width, A4Height}
  {
    if OrientationOf(template) == Portrait then (A4Width, A4Height) else (A4Height, A4Width)
  }

  /** Which texts are centred: on `fondo_2` everything but the hidden number,
      on `fondo_3` and `fondo_4` the name and the course, on `fondo_1`
      nothing. */
  lemma CentredFields(template: Template, field: Field)
    requires StyleOf(template, field).Some?
    ensures Centred(StyleOf(template, field).value) <==>
      || (template == Fondo2 && field != Numero)
      || ((template == Fondo3 || template == Fondo4) && (field == Nombre || field == Curso))
  {
  }

  /** `fondo_3` and `fondo_4` share one layout. */
  lemma ApprovalLayoutsAgree(field: Field)
    ensures StyleOf(Fondo3, field) == StyleOf(Fondo4, field)
  {
  }
}
