/**
 * The sprites the game world is made of: pipes, birds and the scrolling base.
 *
 * FlappyBird/Pipe.py, FlappyBird/Bird.py and FlappyBird/Base.py are not part
 * of this model. What the world and the evaluation loop need from them (how a
 * pipe moves, where its right edge is, when it is off screen, how a bird falls
 * and jumps, the pixel-mask collision test, the scrolling of the base) is
 * supplied as a `Physics` record of functions. The record fixes the shape of
 * that behaviour, and every property proved here holds for any functions of
 * that shape: moving a pipe changes only its left edge, a pipe's right edge
 * and its leaving the screen depend on the left edge alone, and falling and
 * jumping change only a bird's vertical state, never its `x`.
 */
module Sprites {

  /** A pipe pair: left edge `x`, the gap's top edge `height` and bottom edge
      `bottom`, and whether a bird has already scored it. */
  datatype Pipe = Pipe(x: real, height: real, bottom: real, passed: bool)

  /** The gap position that Pipe's constructor draws at random. */
  datatype Gap = Gap(height: real, bottom: real)

  /** A bird's vertical state; jumping and falling change only this. */
  datatype Flight = Flight(y: real, velocity: real, tickCount: int, tilt: real)

  /** A bird: fixed horizontal position `x` and its vertical state. */
  datatype Bird = Bird(x: real, flight: Flight)

  /** The two tile offsets of the scrolling ground strip. */
  datatype Base = Base(x1: real, x2: real)

  /** The behaviour of the sprite classes, as parameters. */
  datatype Physics = Physics(
    spawnX: real,                         // left edge of a newly created pipe
    advance: real -> real,                // Pipe.move, as a map on the left edge
    rightEdge: real -> real,              // Pipe.right, from the left edge
    offScreen: real -> bool,              // Pipe.off_screen, from the left edge
    baseStart: Base,                      // Base(win)
    scroll: Base -> Base,                 // Base.move
    birdStart: Bird,                      // Bird(win)
    fall: Flight -> Flight,               // Bird.move
    jump: Flight -> Flight,               // Bird.jump
    collide: (Bird, Pipe, Base) -> bool   // Bird.collide
  )

  /** Pipe(win): a new, unscored pipe at the spawn position. */
  function NewPipe(ph: Physics, gap: Gap): Pipe {
    Pipe(ph.spawnX, gap.height, gap.bottom, false)
  }

  /** pipe.move(): only the left edge changes. */
  function Move(ph: Physics, p: Pipe): Pipe {
    p.(x := ph.advance(p.x))
  }

  function Right(ph: Physics, p: Pipe): real {
    ph.rightEdge(p.x)
  }

  predicate OffScreen(ph: Physics, p: Pipe) {
    ph.offScreen(p.x)
  }

  /** bird.move() */
  function Fall(ph: Physics, b: Bird): Bird {
    b.(flight := ph.fall(b.flight))
  }

  /** bird.jump() */
  function Jump(ph: Physics, b: Bird): Bird {
    b.(flight := ph.jump(b.flight))
  }
}
