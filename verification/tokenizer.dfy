/** The tokenizer as a capability: any deterministic pair of encoding and
    decoding functions. No vocabulary is assumed. */
module Tokenizers {

  datatype Tokenizer = Tokenizer(encode: string -> seq<int>, decode: seq<int> -> string) {
    /** `count_tokens`: the number of tokens the text encodes to. */
    function Count(s: string): nat {
      |encode(s)|
    }
  }
}
