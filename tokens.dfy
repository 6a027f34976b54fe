/**
 * The tokens an HTML tokenizer hands to a token sink. The tokenizer itself is a
 * foreign library; the model only fixes the shape of what it reports.
 */
module HtmlTokens {

  /** An attribute of a tag, by its local name. */
  datatype Attribute = Attribute(name: string, value: string)

  datatype Token =
    | StartTag(name: string, attrs: seq<Attribute>, selfClosing: bool)
    | EndTag(name: string)
    | CharacterTokens(text: string)
    /** Comments, doctypes, null characters, parse errors and end of input. */
    | Other

  /** What a sink asks the tokenizer to do next. */
  datatype SinkResult = Continue | Script | Plaintext | RawData
}
