/** The Huffman code of Appendix B of RFC 7541: its two tables, by symbol, and the
    facts that make it a canonical, complete prefix code. Symbol 256 is EOS. */
module HuffmanTable {

  const EOS: nat := 256
  const SYMBOLS: nat := 257
  const MAX_LEN: nat := 30

  /** The code of a symbol, right-aligned. */
  function Code(sym: int): int {
    if sym < 32 then (match sym
      case 0 => 0x1ff8 case 1 => 0x7fffd8 case 2 => 0xfffffe2 case 3 => 0xfffffe3 case 4 => 0xfffffe4
      case 5 => 0xfffffe5 case 6 => 0xfffffe6 case 7 => 0xfffffe7
      case 8 => 0xfffffe8 case 9 => 0xffffea case 10 => 0x3ffffffc case 11 => 0xfffffe9 case 12 => 0xfffffea
      case 13 => 0x3ffffffd case 14 => 0xfffffeb case 15 => 0xfffffec
      case 16 => 0xfffffed case 17 => 0xfffffee case 18 => 0xfffffef case 19 => 0xffffff0
      case 20 => 0xffffff1 case 21 => 0xffffff2 case 22 => 0x3ffffffe case 23 => 0xffffff3
      case 24 => 0xffffff4 case 25 => 0xffffff5 case 26 => 0xffffff6 case 27 => 0xffffff7
      case 28 => 0xffffff8 case 29 => 0xffffff9 case 30 => 0xffffffa case 31 => 0xffffffb case _ => 0)
    else if sym < 64 then (match sym
      case 32 => 0x14 case 33 => 0x3f8 case 34 => 0x3f9 case 35 => 0xffa case 36 => 0x1ff9 case 37 => 0x15
      case 38 => 0xf8 case 39 => 0x7fa
      case 40 => 0x3fa case 41 => 0x3fb case 42 => 0xf9 case 43 => 0x7fb case 44 => 0xfa case 45 => 0x16
      case 46 => 0x17 case 47 => 0x18
      case 48 => 0x0 case 49 => 0x1 case 50 => 0x2 case 51 => 0x19 case 52 => 0x1a case 53 => 0x1b
      case 54 => 0x1c case 55 => 0x1d
      case 56 => 0x1e case 57 => 0x1f case 58 => 0x5c case 59 => 0xfb case 60 => 0x7ffc case 61 => 0x20
      case 62 => 0xffb case 63 => 0x3fc case _ => 0)
    else if sym < 96 then (match sym
      case 64 => 0x1ffa case 65 => 0x21 case 66 => 0x5d case 67 => 0x5e case 68 => 0x5f case 69 => 0x60
      case 70 => 0x61 case 71 => 0x62
      case 72 => 0x63 case 73 => 0x64 case 74 => 0x65 case 75 => 0x66 case 76 => 0x67 case 77 => 0x68
      case 78 => 0x69 case 79 => 0x6a
      case 80 => 0x6b case 81 => 0x6c case 82 => 0x6d case 83 => 0x6e case 84 => 0x6f case 85 => 0x70
      case 86 => 0x71 case 87 => 0x72
      case 88 => 0xfc case 89 => 0x73 case 90 => 0xfd case 91 => 0x1ffb case 92 => 0x7fff0 case 93 => 0x1ffc
      case 94 => 0x3ffc case 95 => 0x22 case _ => 0)
    else if sym < 128 then (match sym
      case 96 => 0x7ffd case 97 => 0x3 case 98 => 0x23 case 99 => 0x4 case 100 => 0x24 case 101 => 0x5
      case 102 => 0x25 case 103 => 0x26
      case 104 => 0x27 case 105 => 0x6 case 106 => 0x74 case 107 => 0x75 case 108 => 0x28 case 109 => 0x29
      case 110 => 0x2a case 111 => 0x7
      case 112 => 0x2b case 113 => 0x76 case 114 => 0x2c case 115 => 0x8 case 116 => 0x9 case 117 => 0x2d
      case 118 => 0x77 case 119 => 0x78
      case 120 => 0x79 case 121 => 0x7a case 122 => 0x7b case 123 => 0x7ffe case 124 => 0x7fc
      case 125 => 0x3ffd case 126 => 0x1ffd case 127 => 0xffffffc case _ => 0)
    else if sym < 160 then (match sym
      case 128 => 0xfffe6 case 129 => 0x3fffd2 case 130 => 0xfffe7 case 131 => 0xfffe8 case 132 => 0x3fffd3
      case 133 => 0x3fffd4 case 134 => 0x3fffd5 case 135 => 0x7fffd9
      case 136 => 0x3fffd6 case 137 => 0x7fffda case 138 => 0x7fffdb case 139 => 0x7fffdc
      case 140 => 0x7fffdd case 141 => 0x7fffde case 142 => 0xffffeb case 143 => 0x7fffdf
      case 144 => 0xffffec case 145 => 0xffffed case 146 => 0x3fffd7 case 147 => 0x7fffe0
      case 148 => 0xffffee case 149 => 0x7fffe1 case 150 => 0x7fffe2 case 151 => 0x7fffe3
      case 152 => 0x7fffe4 case 153 => 0x1fffdc case 154 => 0x3fffd8 case 155 => 0x7fffe5
      case 156 => 0x3fffd9 case 157 => 0x7fffe6 case 158 => 0x7fffe7 case 159 => 0xffffef case _ => 0)
    else if sym < 192 then (match sym
      case 160 => 0x3fffda case 161 => 0x1fffdd case 162 => 0xfffe9 case 163 => 0x3fffdb case 164 => 0x3fffdc
      case 165 => 0x7fffe8 case 166 => 0x7fffe9 case 167 => 0x1fffde
      case 168 => 0x7fffea case 169 => 0x3fffdd case 170 => 0x3fffde case 171 => 0xfffff0
      case 172 => 0x1fffdf case 173 => 0x3fffdf case 174 => 0x7fffeb case 175 => 0x7fffec
      case 176 => 0x1fffe0 case 177 => 0x1fffe1 case 178 => 0x3fffe0 case 179 => 0x1fffe2
      case 180 => 0x7fffed case 181 => 0x3fffe1 case 182 => 0x7fffee case 183 => 0x7fffef
      case 184 => 0xfffea case 185 => 0x3fffe2 case 186 => 0x3fffe3 case 187 => 0x3fffe4 case 188 => 0x7ffff0
      case 189 => 0x3fffe5 case 190 => 0x3fffe6 case 191 => 0x7ffff1 case _ => 0)
    else if sym < 224 then (match sym
      case 192 => 0x3ffffe0 case 193 => 0x3ffffe1 case 194 => 0xfffeb case 195 => 0x7fff1
      case 196 => 0x3fffe7 case 197 => 0x7ffff2 case 198 => 0x3fffe8 case 199 => 0x1ffffec
      case 200 => 0x3ffffe2 case 201 => 0x3ffffe3 case 202 => 0x3ffffe4 case 203 => 0x7ffffde
      case 204 => 0x7ffffdf case 205 => 0x3ffffe5 case 206 => 0xfffff1 case 207 => 0x1ffffed
      case 208 => 0x7fff2 case 209 => 0x1fffe3 case 210 => 0x3ffffe6 case 211 => 0x7ffffe0
      case 212 => 0x7ffffe1 case 213 => 0x3ffffe7 case 214 => 0x7ffffe2 case 215 => 0xfffff2
      case 216 => 0x1fffe4 case 217 => 0x1fffe5 case 218 => 0x3ffffe8 case 219 => 0x3ffffe9
      case 220 => 0xffffffd case 221 => 0x7ffffe3 case 222 => 0x7ffffe4 case 223 => 0x7ffffe5 case _ => 0)
    else (match sym
      case 224 => 0xfffec case 225 => 0xfffff3 case 226 => 0xfffed case 227 => 0x1fffe6 case 228 => 0x3fffe9
      case 229 => 0x1fffe7 case 230 => 0x1fffe8 case 231 => 0x7ffff3
      case 232 => 0x3fffea case 233 => 0x3fffeb case 234 => 0x1ffffee case 235 => 0x1ffffef
      case 236 => 0xfffff4 case 237 => 0xfffff5 case 238 => 0x3ffffea case 239 => 0x7ffff4
      case 240 => 0x3ffffeb case 241 => 0x7ffffe6 case 242 => 0x3ffffec case 243 => 0x3ffffed
      case 244 => 0x7ffffe7 case 245 => 0x7ffffe8 case 246 => 0x7ffffe9 case 247 => 0x7ffffea
      case 248 => 0x7ffffeb case 249 => 0xffffffe case 250 => 0x7ffffec case 251 => 0x7ffffed
      case 252 => 0x7ffffee case 253 => 0x7ffffef case 254 => 0x7fffff0 case 255 => 0x3ffffee
      case 256 => 0x3fffffff case _ => 0)
  }

  /** The length of a symbol's code in bits. */
  function Len(sym: int): int {
    if sym < 32 then (match sym
      case 0 => 13 case 1 => 23 case 2 => 28 case 3 => 28 case 4 => 28 case 5 => 28 case 6 => 28 case 7 => 28
      case 8 => 28 case 9 => 24 case 10 => 30 case 11 => 28 case 12 => 28 case 13 => 30 case 14 => 28
      case 15 => 28
      case 16 => 28 case 17 => 28 case 18 => 28 case 19 => 28 case 20 => 28 case 21 => 28 case 22 => 30
      case 23 => 28 case 24 => 28 case 25 => 28 case 26 => 28 case 27 => 28 case 28 => 28 case 29 => 28
      case 30 => 28 case 31 => 28 case _ => 0)
    else if sym < 64 then (match sym
      case 32 => 6 case 33 => 10 case 34 => 10 case 35 => 12 case 36 => 13 case 37 => 6 case 38 => 8
      case 39 => 11 case 40 => 10 case 41 => 10 case 42 => 8 case 43 => 11 case 44 => 8 case 45 => 6
      case 46 => 6 case 47 => 6
      case 48 => 5 case 49 => 5 case 50 => 5 case 51 => 6 case 52 => 6 case 53 => 6 case 54 => 6 case 55 => 6
      case 56 => 6 case 57 => 6 case 58 => 7 case 59 => 8 case 60 => 15 case 61 => 6 case 62 => 12
      case 63 => 10 case _ => 0)
    else if sym < 96 then (match sym
      case 64 => 13 case 65 => 6 case 66 => 7 case 67 => 7 case 68 => 7 case 69 => 7 case 70 => 7
      case 71 => 7 case 72 => 7 case 73 => 7 case 74 => 7 case 75 => 7 case 76 => 7 case 77 => 7 case 78 => 7
      case 79 => 7
      case 80 => 7 case 81 => 7 case 82 => 7 case 83 => 7 case 84 => 7 case 85 => 7 case 86 => 7 case 87 => 7
      case 88 => 8 case 89 => 7 case 90 => 8 case 91 => 13 case 92 => 19 case 93 => 13 case 94 => 14
      case 95 => 6 case _ => 0)
    else if sym < 128 then (match sym
      case 96 => 15 case 97 => 5 case 98 => 6 case 99 => 5 case 100 => 6 case 101 => 5 case 102 => 6
      case 103 => 6 case 104 => 6 case 105 => 5 case 106 => 7 case 107 => 7 case 108 => 6 case 109 => 6
      case 110 => 6 case 111 => 5
      case 112 => 6 case 113 => 7 case 114 => 6 case 115 => 5 case 116 => 5 case 117 => 6 case 118 => 7
      case 119 => 7 case 120 => 7 case 121 => 7 case 122 => 7 case 123 => 15 case 124 => 11 case 125 => 14
      case 126 => 13 case 127 => 28 case _ => 0)
    else if sym < 160 then (match sym
      case 128 => 20 case 129 => 22 case 130 => 20 case 131 => 20 case 132 => 22 case 133 => 22
      case 134 => 22 case 135 => 23 case 136 => 22 case 137 => 23 case 138 => 23 case 139 => 23
      case 140 => 23 case 141 => 23 case 142 => 24 case 143 => 23
      case 144 => 24 case 145 => 24 case 146 => 22 case 147 => 23 case 148 => 24 case 149 => 23
      case 150 => 23 case 151 => 23 case 152 => 23 case 153 => 21 case 154 => 22 case 155 => 23
      case 156 => 22 case 157 => 23 case 158 => 23 case 159 => 24 case _ => 0)
    else if sym < 192 then (match sym
      case 160 => 22 case 161 => 21 case 162 => 20 case 163 => 22 case 164 => 22 case 165 => 23
      case 166 => 23 case 167 => 21 case 168 => 23 case 169 => 22 case 170 => 22 case 171 => 24
      case 172 => 21 case 173 => 22 case 174 => 23 case 175 => 23
      case 176 => 21 case 177 => 21 case 178 => 22 case 179 => 21 case 180 => 23 case 181 => 22
      case 182 => 23 case 183 => 23 case 184 => 20 case 185 => 22 case 186 => 22 case 187 => 22
      case 188 => 23 case 189 => 22 case 190 => 22 case 191 => 23 case _ => 0)
    else if sym < 224 then (match sym
      case 192 => 26 case 193 => 26 case 194 => 20 case 195 => 19 case 196 => 22 case 197 => 23
      case 198 => 22 case 199 => 25 case 200 => 26 case 201 => 26 case 202 => 26 case 203 => 27
      case 204 => 27 case 205 => 26 case 206 => 24 case 207 => 25
      case 208 => 19 case 209 => 21 case 210 => 26 case 211 => 27 case 212 => 27 case 213 => 26
      case 214 => 27 case 215 => 24 case 216 => 21 case 217 => 21 case 218 => 26 case 219 => 26
      case 220 => 28 case 221 => 27 case 222 => 27 case 223 => 27 case _ => 0)
    else (match sym
      case 224 => 20 case 225 => 24 case 226 => 20 case 227 => 21 case 228 => 22 case 229 => 21
      case 230 => 21 case 231 => 23 case 232 => 22 case 233 => 22 case 234 => 25 case 235 => 25
      case 236 => 24 case 237 => 24 case 238 => 26 case 239 => 23
      case 240 => 26 case 241 => 27 case 242 => 26 case 243 => 26 case 244 => 27 case 245 => 27
      case 246 => 27 case 247 => 27 case 248 => 27 case 249 => 28 case 250 => 27 case 251 => 27
      case 252 => 27 case 253 => 27 case 254 => 27 case 255 => 26
      case 256 => 30 case _ => 0)
  }

  // ---- canonical order ------------------------------------------------------------

  /** The smallest code of each length, in canonical order. */
  function First(len: int): int {
    match len
    case 0 => 0x0 case 1 => 0x0 case 2 => 0x0 case 3 => 0x0 case 4 => 0x0 case 5 => 0x0 case 6 => 0x14 case 7 => 0x5c
    case 8 => 0xf8 case 9 => 0x1fc case 10 => 0x3f8 case 11 => 0x7fa case 12 => 0xffa case 13 => 0x1ff8
    case 14 => 0x3ffc case 15 => 0x7ffc
    case 16 => 0xfffe case 17 => 0x1fffc case 18 => 0x3fff8 case 19 => 0x7fff0 case 20 => 0xfffe6
    case 21 => 0x1fffdc case 22 => 0x3fffd2 case 23 => 0x7fffd8
    case 24 => 0xffffea case 25 => 0x1ffffec case 26 => 0x3ffffe0 case 27 => 0x7ffffde case 28 => 0xfffffe2
    case 29 => 0x1ffffffe case 30 => 0x3ffffffc case _ => 0
  }

  /** The number of codes of each length. */
  function Count(len: int): int {
    match len
    case 0 => 0 case 1 => 0 case 2 => 0 case 3 => 0 case 4 => 0 case 5 => 10 case 6 => 26 case 7 => 32
    case 8 => 6 case 9 => 0 case 10 => 5 case 11 => 3 case 12 => 2 case 13 => 6 case 14 => 2 case 15 => 3
    case 16 => 0 case 17 => 0 case 18 => 0 case 19 => 3 case 20 => 8 case 21 => 13 case 22 => 26
    case 23 => 29 case 24 => 12 case 25 => 4 case 26 => 15 case 27 => 19 case 28 => 29 case 29 => 0
    case 30 => 4 case _ => 0
  }

  /** The number of codes shorter than each length. */
  function Base(len: int): int {
    match len
    case 0 => 0 case 1 => 0 case 2 => 0 case 3 => 0 case 4 => 0 case 5 => 0 case 6 => 10 case 7 => 36
    case 8 => 68 case 9 => 74 case 10 => 74 case 11 => 79 case 12 => 82 case 13 => 84 case 14 => 90
    case 15 => 92
    case 16 => 95 case 17 => 95 case 18 => 95 case 19 => 95 case 20 => 98 case 21 => 106 case 22 => 119
    case 23 => 145 case 24 => 174 case 25 => 186 case 26 => 190 case 27 => 205 case 28 => 224 case 29 => 253
    case 30 => 253 case _ => 0
  }

  /** The symbols by length, and within a length by code. */
  function SymAt(pos: int): int {
    if pos < 32 then (match pos
      case 0 => 48 case 1 => 49 case 2 => 50 case 3 => 97 case 4 => 99 case 5 => 101 case 6 => 105
      case 7 => 111 case 8 => 115 case 9 => 116 case 10 => 32 case 11 => 37 case 12 => 45 case 13 => 46
      case 14 => 47 case 15 => 51
      case 16 => 52 case 17 => 53 case 18 => 54 case 19 => 55 case 20 => 56 case 21 => 57 case 22 => 61
      case 23 => 65 case 24 => 95 case 25 => 98 case 26 => 100 case 27 => 102 case 28 => 103 case 29 => 104
      case 30 => 108 case 31 => 109 case _ => 0)
    else if pos < 64 then (match pos
      case 32 => 110 case 33 => 112 case 34 => 114 case 35 => 117 case 36 => 58 case 37 => 66 case 38 => 67
      case 39 => 68 case 40 => 69 case 41 => 70 case 42 => 71 case 43 => 72 case 44 => 73 case 45 => 74
      case 46 => 75 case 47 => 76
      case 48 => 77 case 49 => 78 case 50 => 79 case 51 => 80 case 52 => 81 case 53 => 82 case 54 => 83
      case 55 => 84 case 56 => 85 case 57 => 86 case 58 => 87 case 59 => 89 case 60 => 106 case 61 => 107
      case 62 => 113 case 63 => 118 case _ => 0)
    else if pos < 96 then (match pos
      case 64 => 119 case 65 => 120 case 66 => 121 case 67 => 122 case 68 => 38 case 69 => 42 case 70 => 44
      case 71 => 59 case 72 => 88 case 73 => 90 case 74 => 33 case 75 => 34 case 76 => 40 case 77 => 41
      case 78 => 63 case 79 => 39
      case 80 => 43 case 81 => 124 case 82 => 35 case 83 => 62 case 84 => 0 case 85 => 36 case 86 => 64
      case 87 => 91 case 88 => 93 case 89 => 126 case 90 => 94 case 91 => 125 case 92 => 60 case 93 => 96
      case 94 => 123 case 95 => 92 case _ => 0)
    else if pos < 128 then (match pos
      case 96 => 195 case 97 => 208 case 98 => 128 case 99 => 130 case 100 => 131 case 101 => 162
      case 102 => 184 case 103 => 194 case 104 => 224 case 105 => 226 case 106 => 153 case 107 => 161
      case 108 => 167 case 109 => 172 case 110 => 176 case 111 => 177
      case 112 => 179 case 113 => 209 case 114 => 216 case 115 => 217 case 116 => 227 case 117 => 229
      case 118 => 230 case 119 => 129 case 120 => 132 case 121 => 133 case 122 => 134 case 123 => 136
      case 124 => 146 case 125 => 154 case 126 => 156 case 127 => 160 case _ => 0)
    else if pos < 160 then (match pos
      case 128 => 163 case 129 => 164 case 130 => 169 case 131 => 170 case 132 => 173 case 133 => 178
      case 134 => 181 case 135 => 185 case 136 => 186 case 137 => 187 case 138 => 189 case 139 => 190
      case 140 => 196 case 141 => 198 case 142 => 228 case 143 => 232
      case 144 => 233 case 145 => 1 case 146 => 135 case 147 => 137 case 148 => 138 case 149 => 139
      case 150 => 140 case 151 => 141 case 152 => 143 case 153 => 147 case 154 => 149 case 155 => 150
      case 156 => 151 case 157 => 152 case 158 => 155 case 159 => 157 case _ => 0)
    else if pos < 192 then (match pos
      case 160 => 158 case 161 => 165 case 162 => 166 case 163 => 168 case 164 => 174 case 165 => 175
      case 166 => 180 case 167 => 182 case 168 => 183 case 169 => 188 case 170 => 191 case 171 => 197
      case 172 => 231 case 173 => 239 case 174 => 9 case 175 => 142
      case 176 => 144 case 177 => 145 case 178 => 148 case 179 => 159 case 180 => 171 case 181 => 206
      case 182 => 215 case 183 => 225 case 184 => 236 case 185 => 237 case 186 => 199 case 187 => 207
      case 188 => 234 case 189 => 235 case 190 => 192 case 191 => 193 case _ => 0)
    else if pos < 224 then (match pos
      case 192 => 200 case 193 => 201 case 194 => 202 case 195 => 205 case 196 => 210 case 197 => 213
      case 198 => 218 case 199 => 219 case 200 => 238 case 201 => 240 case 202 => 242 case 203 => 243
      case 204 => 255 case 205 => 203 case 206 => 204 case 207 => 211
      case 208 => 212 case 209 => 214 case 210 => 221 case 211 => 222 case 212 => 223 case 213 => 241
      case 214 => 244 case 215 => 245 case 216 => 246 case 217 => 247 case 218 => 248 case 219 => 250
      case 220 => 251 case 221 => 252 case 222 => 253 case 223 => 254 case _ => 0)
    else (match pos
      case 224 => 2 case 225 => 3 case 226 => 4 case 227 => 5 case 228 => 6 case 229 => 7 case 230 => 8
      case 231 => 11 case 232 => 12 case 233 => 14 case 234 => 15 case 235 => 16 case 236 => 17
      case 237 => 18 case 238 => 19 case 239 => 20
      case 240 => 21 case 241 => 23 case 242 => 24 case 243 => 25 case 244 => 26 case 245 => 27
      case 246 => 28 case 247 => 29 case 248 => 30 case 249 => 31 case 250 => 127 case 251 => 220
      case 252 => 249 case 253 => 10 case 254 => 13 case 255 => 22
      case 256 => 256 case _ => 0)
  }

  /** The symbol with the k-th code of a length. */
  function Place(len: int, k: int): int { SymAt(Base(len) + k) }

  /** The k-th place of a length's block holds a symbol of that length with the k-th
      code, and a smaller one than the next place does. */
  predicate InBlock(len: int, first: int, base: int, count: int, k: int) {
    var sym := SymAt(base + k);
    && 0 <= sym < 257 && Len(sym) == len && Code(sym) == first + k
    && (k + 1 < count ==> sym < SymAt(base + k + 1))
  }

  lemma Block5(k: int) requires 0 <= k < 10 ensures InBlock(5, 0x0, 0, 10, k) { }
  lemma Block6from0(k: int) requires 0 <= k < 9 ensures InBlock(6, 0x14, 10, 26, k) { }
  lemma Block6from9(k: int) requires 9 <= k < 18 ensures InBlock(6, 0x14, 10, 26, k) { }
  lemma Block6from18(k: int) requires 18 <= k < 26 ensures InBlock(6, 0x14, 10, 26, k) { }
  lemma Block7from0(k: int) requires 0 <= k < 11 ensures InBlock(7, 0x5c, 36, 32, k) { }
  lemma Block7from11(k: int) requires 11 <= k < 22 ensures InBlock(7, 0x5c, 36, 32, k) { }
  lemma Block7from22(k: int) requires 22 <= k < 32 ensures InBlock(7, 0x5c, 36, 32, k) { }
  lemma Block8(k: int) requires 0 <= k < 6 ensures InBlock(8, 0xf8, 68, 6, k) { }
  lemma Block10(k: int) requires 0 <= k < 5 ensures InBlock(10, 0x3f8, 74, 5, k) { }
  lemma Block11(k: int) requires 0 <= k < 3 ensures InBlock(11, 0x7fa, 79, 3, k) { }
  lemma Block12(k: int) requires 0 <= k < 2 ensures InBlock(12, 0xffa, 82, 2, k) { }
  lemma Block13(k: int) requires 0 <= k < 6 ensures InBlock(13, 0x1ff8, 84, 6, k) { }
  lemma Block14(k: int) requires 0 <= k < 2 ensures InBlock(14, 0x3ffc, 90, 2, k) { }
  lemma Block15(k: int) requires 0 <= k < 3 ensures InBlock(15, 0x7ffc, 92, 3, k) { }
  lemma Block19(k: int) requires 0 <= k < 3 ensures InBlock(19, 0x7fff0, 95, 3, k) { }
  lemma Block20(k: int) requires 0 <= k < 8 ensures InBlock(20, 0xfffe6, 98, 8, k) { }
  lemma Block21from0(k: int) requires 0 <= k < 7 ensures InBlock(21, 0x1fffdc, 106, 13, k) { }
  lemma Block21from7(k: int) requires 7 <= k < 13 ensures InBlock(21, 0x1fffdc, 106, 13, k) { }
  lemma Block22from0(k: int) requires 0 <= k < 9 ensures InBlock(22, 0x3fffd2, 119, 26, k) { }
  lemma Block22from9(k: int) requires 9 <= k < 18 ensures InBlock(22, 0x3fffd2, 119, 26, k) { }
  lemma Block22from18(k: int) requires 18 <= k < 26 ensures InBlock(22, 0x3fffd2, 119, 26, k) { }
  lemma Block23from0(k: int) requires 0 <= k < 10 ensures InBlock(23, 0x7fffd8, 145, 29, k) { }
  lemma Block23from10(k: int) requires 10 <= k < 20 ensures InBlock(23, 0x7fffd8, 145, 29, k) { }
  lemma Block23from20(k: int) requires 20 <= k < 29 ensures InBlock(23, 0x7fffd8, 145, 29, k) { }
  lemma Block24from0(k: int) requires 0 <= k < 6 ensures InBlock(24, 0xffffea, 174, 12, k) { }
  lemma Block24from6(k: int) requires 6 <= k < 12 ensures InBlock(24, 0xffffea, 174, 12, k) { }
  lemma Block25(k: int) requires 0 <= k < 4 ensures InBlock(25, 0x1ffffec, 186, 4, k) { }
  lemma Block26from0(k: int) requires 0 <= k < 8 ensures InBlock(26, 0x3ffffe0, 190, 15, k) { }
  lemma Block26from8(k: int) requires 8 <= k < 15 ensures InBlock(26, 0x3ffffe0, 190, 15, k) { }
  lemma Block27from0(k: int) requires 0 <= k < 10 ensures InBlock(27, 0x7ffffde, 205, 19, k) { }
  lemma Block27from10(k: int) requires 10 <= k < 19 ensures InBlock(27, 0x7ffffde, 205, 19, k) { }
  lemma Block28from0(k: int) requires 0 <= k < 10 ensures InBlock(28, 0xfffffe2, 224, 29, k) { }
  lemma Block28from10(k: int) requires 10 <= k < 20 ensures InBlock(28, 0xfffffe2, 224, 29, k) { }
  lemma Block28from20(k: int) requires 20 <= k < 29 ensures InBlock(28, 0xfffffe2, 224, 29, k) { }
  lemma Block30(k: int) requires 0 <= k < 4 ensures InBlock(30, 0x3ffffffc, 253, 4, k) { }

  lemma SymbolOfCode(len: int, k: int)
    requires 0 <= len <= MAX_LEN && 0 <= k < Count(len)
    ensures InBlock(len, First(len), Base(len), Count(len), k)
  {
    hide InBlock;
    match len {
      case 5 => Block5(k);
      case 6 => if k < 9 { Block6from0(k); } else if k < 18 { Block6from9(k); } else { Block6from18(k); }
      case 7 => if k < 11 { Block7from0(k); } else if k < 22 { Block7from11(k); } else { Block7from22(k); }
      case 8 => Block8(k);
      case 10 => Block10(k);
      case 11 => Block11(k);
      case 12 => Block12(k);
      case 13 => Block13(k);
      case 14 => Block14(k);
      case 15 => Block15(k);
      case 19 => Block19(k);
      case 20 => Block20(k);
      case 21 => if k < 7 { Block21from0(k); } else { Block21from7(k); }
      case 22 => if k < 9 { Block22from0(k); } else if k < 18 { Block22from9(k); } else { Block22from18(k); }
      case 23 => if k < 10 { Block23from0(k); } else if k < 20 { Block23from10(k); } else { Block23from20(k); }
      case 24 => if k < 6 { Block24from0(k); } else { Block24from6(k); }
      case 25 => Block25(k);
      case 26 => if k < 8 { Block26from0(k); } else { Block26from8(k); }
      case 27 => if k < 10 { Block27from0(k); } else { Block27from10(k); }
      case 28 => if k < 10 { Block28from0(k); } else if k < 20 { Block28from10(k); } else { Block28from20(k); }
      case 30 => Block30(k);
      case _ =>
    }
  }

  /** Codes of each length follow on from those of the length before: the code is canonical. */
  lemma Canonical(len: int)
    requires 0 <= len < MAX_LEN
    ensures First(len + 1) == 2 * (First(len) + Count(len)) && Base(len + 1) == Base(len) + Count(len)
  {
  }

  /** Codes have 5 to 30 bits, and the last code is all ones: the code is complete. */
  lemma LengthBounds(len: int)
    requires 0 <= len <= MAX_LEN
    ensures 0 <= First(len) && 0 <= Count(len) <= 40 && 0 <= Base(len) && Base(len) + Count(len) <= SYMBOLS
    ensures len < 5 ==> Count(len) == 0
    ensures First(0) == 0 && First(MAX_LEN) + Count(MAX_LEN) == 0x4000_0000
    ensures Base(0) == 0 && Base(MAX_LEN) + Count(MAX_LEN) == SYMBOLS
  {
  }

  // ---- every symbol has a place -----------------------------------------------------

  /** Every place lies in the block of some length. */
  lemma {:induction false} BlockOf(pos: int, len: int) returns (l: int, k: int)
    requires 0 <= len <= MAX_LEN && 0 <= pos < Base(len) + Count(len)
    ensures 0 <= l <= MAX_LEN && 0 <= k < Count(l) && pos == Base(l) + k
  {
    hide Base, Count, First;
    LengthBounds(len);
    if pos >= Base(len) {
      l, k := len, pos - Base(len);
    } else {
      Canonical(len - 1);
      l, k := BlockOf(pos, len - 1);
    }
  }

  /** The place of a symbol, read off its code. */
  function Position(sym: int): int { Base(Len(sym)) + Code(sym) - First(Len(sym)) }

  lemma PlaceIsPosition(pos: int)
    requires 0 <= pos < SYMBOLS
    ensures 0 <= SymAt(pos) < SYMBOLS && Position(SymAt(pos)) == pos
    ensures var l := Len(SymAt(pos)); 0 <= l <= MAX_LEN && Base(l) <= pos < Base(l) + Count(l)
  {
    hide Base, Count, First, Code, Len, SymAt;
    LengthBounds(MAX_LEN);
    var l, k := BlockOf(pos, MAX_LEN);
    SymbolOfCode(l, k);
  }

  ghost function SymbolsBefore(n: nat): set<int> { set p | 0 <= p < n :: SymAt(p) }

  lemma {:induction false} SymbolsAreMany(n: nat)
    requires n <= SYMBOLS
    ensures |SymbolsBefore(n)| == n && forall s :: s in SymbolsBefore(n) ==> 0 <= s < SYMBOLS
  {
    hide Position, SymAt;
    if n == 0 {
      assert SymbolsBefore(0) == {};
    } else {
      SymbolsAreMany(n - 1);
      PlaceIsPosition(n - 1);
      forall p | 0 <= p < n - 1 ensures SymAt(p) != SymAt(n - 1) { PlaceIsPosition(p); }
      assert SymbolsBefore(n) == SymbolsBefore(n - 1) + {SymAt(n - 1)};
    }
  }

  lemma {:induction false} FullRange(a: set<int>, n: nat)
    requires |a| == n && forall x :: x in a ==> 0 <= x < n
    ensures forall x :: 0 <= x < n ==> x in a
  {
    if n > 0 {
      if n - 1 !in a {
        BoundedSize(a, n - 1);
      } else {
        FullRange(a - {n - 1}, n - 1);
      }
    }
  }

  lemma {:induction false} BoundedSize(a: set<int>, n: nat)
    requires forall x :: x in a ==> 0 <= x < n
    ensures |a| <= n
  {
    if n == 0 {
      assert forall x :: x !in a;
      assert a == {};
    } else {
      BoundedSize(a - {n - 1}, n - 1);
    }
  }

  /** Every symbol stands at its position: no two symbols share a code. */
  lemma SymbolInPlace(sym: nat)
    requires sym < SYMBOLS
    ensures var l := Len(sym);
      && 5 <= l <= MAX_LEN && 0 <= Code(sym) - First(l) < Count(l)
      && Place(l, Code(sym) - First(l)) == sym
  {
    hide Base, Count, First, Code, Len, SymAt;
    SymbolsAreMany(SYMBOLS);
    FullRange(SymbolsBefore(SYMBOLS), SYMBOLS);
    assert sym in SymbolsBefore(SYMBOLS);
    var pos :| 0 <= pos < SYMBOLS && SymAt(pos) == sym;
    PlaceIsPosition(pos);
    LengthBounds(Len(sym));
  }
}
