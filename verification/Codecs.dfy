/** The codecs that frames come in. */
module Codecs {
  datatype Format = VP8 | VP9 | AV1 | H264 | H265
}
