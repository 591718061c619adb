/**
 * Pure bookkeeping of the application shell: which prompts are sent to
 * the model, the scale record of a loaded image, and the image name
 * derived from its source.
 */
module AppModel {
  import opened Options
  import opened Prompts
  import CanvasGeometry
  import opened JsText

  /**
   * The prompts sent to inference: only the last one (JavaScript
   * `slice(-1)`), or none for an empty list.
   */
  function LastClick(cs: seq<Click>): (sent: seq<Click>)
    ensures |sent| <= 1
    ensures sent == [] <==> cs == []
    ensures sent == cs[|cs| - |sent|..]
  {
    if cs == [] then [] else [cs[|cs| - 1]]
  }

  /** After the pending prompt is merged, the model is fed exactly that prompt. */
  lemma MergedPromptIsSent(clicks: Option<seq<Click>>, click: Click)
    ensures var merged := CanvasGeometry.MergeClick(clicks, Some(click));
      merged.Some? && LastClick(merged.value) == [click]
  {
  }

  /** Scales of a loaded image: display, upload and the dimensions of the mask. */
  datatype ModelScale = ModelScale(onnxScale: real, maskWidth: real, maskHeight: real,
                                   scale: real, uploadScale: real, width: real, height: real)

  /**
   * The scale record for an image of the given size: the model-side scale
   * is the display scale divided by the upload scale, and the mask is the
   * image size times the upload scale.
   */
  function MakeModelScale(width: real, height: real, scale: real, uploadScale: real): (m: ModelScale)
    requires uploadScale > 0.0
    ensures m.scale == scale && m.uploadScale == uploadScale && m.width == width && m.height == height
    ensures m.onnxScale * uploadScale == scale
    ensures m.maskWidth / uploadScale == width && m.maskHeight / uploadScale == height
  {
    ModelScale(scale / uploadScale, width * uploadScale, height * uploadScale, scale, uploadScale, width, height)
  }

  /** Where an image came from: a URL (its path) or a value rendered as text. */
  datatype ImageSource = UrlSource(pathname: string) | TextSource(text: string)

  /**
   * The part of the source the name is cut from: a URL's path, or the text
   * before its last '.', which is empty when the text has no '.'
   * (`substring(0, -1)`).
   */
  function Stem(src: ImageSource): (stem: string)
    ensures src.UrlSource? ==> stem == src.pathname
    ensures src.TextSource? && '.' in src.text ==> stem == src.text[..LastIndexOf(src.text, '.')]
    ensures src.TextSource? && '.' !in src.text ==> stem == []
  {
    match src
    case UrlSource(path) => path
    case TextSource(text) => Substring(text, 0, LastIndexOf(text, '.'))
  }

  /**
   * The image name: the stem with everything up to its last '/' dropped.
   */
  function ImageName(src: ImageSource): (name: string)
    ensures '/' !in name
    ensures var stem := Stem(src); name == stem[LastIndexOf(stem, '/') + 1..]
    ensures src.TextSource? && '.' !in src.text ==> name == []
    ensures src.UrlSource? ==> |name| <= |src.pathname| && name == src.pathname[|src.pathname| - |name|..]
    ensures src.TextSource? && '.' in src.text ==>
      var stem := src.text[..LastIndexOf(src.text, '.')];
      |name| <= |stem| && name == stem[|stem| - |name|..]
  {
    var stem := Stem(src);
    Substring(stem, LastIndexOf(stem, '/') + 1, |stem|)
  }

  /** A gallery path loses its directories and its extension. */
  lemma GalleryImageName()
    ensures ImageName(TextSource("/a/cave.jpeg")) == "cave"
  {
    var text := "/a/cave.jpeg";
    assert text[8..] == "jpeg";
    LastIndexOfAt(text, '.', 7);
    var stem := text[..7];
    assert stem == "/a/cave";
    assert stem[3..] == "cave";
    LastIndexOfAt(stem, '/', 2);
  }
}
